# Verification of the hash-reversal server's data structures and algorithms

The server receives a SHA-256 digest and a range of 64-bit values and finds the value whose digest it
is. This project models the parts of it that decide whether the answer is right, and proves what they
promise. `dafny verify dfyconfig.toml` checks it. `MachineInts.dfy` holds the number types several parts share.

* **Answer cache.** A path-compressed trie over the nibbles of a key, with four kinds of branch, edges
  whose text is inline or in a string pool, and all nodes in index pools. `Trie.dfy`, `TrieInsert.dfy` and
  `TrieLookup.dfy` hold the theory: every live pointer carries the label it is reached by, and a flat
  invariant over pairs of pointers says that the labels lead where they should. `FreeList.dfy`,
  `Nibbles.dfy`, `Arena.dfy` and `RadixTree.dfy` are the code, updating pools and the recorded path in
  place. Insertion is exact for keys of every mix of lengths. Lookup is a map's for stored keys and for
  keys of one length; for the other keys it need not be, and `ExactWhen` says exactly when it is.
  `RingBuffer.dfy`, `Cache.dfy` and `CacheDrain.dfy` add the ring of pending answers and its drain.
* **SHA-256.** `ShaSpec.dfy` states schedule and rounds of section 6.2.2 of FIPS 180-4 (the final
  addition left out, as in the code) over numbers modulo 2^32 with the bit functions on bit-vectors.
  `ShaScalar.dfy` and `ShaFour.dfy` (with the lane lemmas of `ShaVector.dfy`) are the implementations;
  `ShaReverse.dfy` the searches, with the early rejection after round 56. What all of them share is tied to
  something else: `ShaConstants.dfy` shows that the tables are the roots of the first primes, `ShaSpec.dfy`
  what the bit operations do, `ShaScalar.dfy` and `ShaReverse.dfy` which numbers the loaded bytes are.
* **Sorting.** `Sort.dfy`: the counting radix sorts.
* **Schedulers.** `PriorityHeap.dfy`, `PriorityScheduler.dfy` and `BlockDispense.dfy` are the priority
  scheduler, and `CleanupScan.dfy` is about what its cleanup finds while the heap moves under it;
  `SpinLock.dfy` and `Publication.dfy` are its lock and its double-buffered heap as steps of any number
  of threads; `RandScheduler.dfy` is the random scheduler.

What does not hold of the code is stated with the exact condition under which it does, and with an
input for which it fails: lookups of keys that were never stored (`ExactWhen`; `ShadowExample`,
`ReadOnMisleads`), the end of a search (`HaltsExactly4` and `HaltsExactly1`; `GuardNeverFails`), heap
removal (`RemoveExact`; `RemoveTakesRoot`), the cut of a range into blocks (`CutsExactly`;
`AllValuesNotCut`, `BackwardBlock`), that its values are in blocks at all (`CoversExactly`), the cut
into slices (`RunsToEndExactly`; `SliceWraps`), the test for a finished job (`DoneTooEarly`), and the
ring's length formula (`LengthExact`; `LengthWrong`). The cleanup scan can miss a finished job, with
ties (`TieMisses`) and without (`ScanMisses`). For one removal (`SlipsExactly`), for one finished job
(`CleanupDropsOne`) and for two (`CleanupDropsTwo`) the condition is exact in every heap; for any
number `CleanupDropsAll` gives a sufficient one. The lock needs no bound on the number of threads: a
reader swaps in only a word whose writer bit was masked off, so the reader count cannot pass 2^31.

Readings of the code that matter for the model:

* Moving an edge's text inline copies `old_idx` bytes, twice what is needed, because `1 /
  RADIX_TREE_KEY_RATIO` is zero (src/bits/radix_tree.h:411-415). The surplus lands on the edge's length
  and target, which the caller writes next; `InlineText` keeps the part that stays.
* Lookup at a branch of 16 reads the key without asking whether it is used up
  (src/bits/radix_tree.c:1004-1012). The model reads the same nibble of the buffer behind the key and goes
  on; only a read outside the buffer is an outcome of its own, `PastKey`. A miss, an immediate or a leaf
  after that is what it is in the code, whose comparison of an edge with the negative rest of the key is a
  miss.
* Special case 2 of insertion (src/bits/radix_tree.c:824-836) pushes two path steps and goes on; the model
  takes the same two steps by the ordinary cases.
* The sorts' masks and shifts are written as quotients and remainders by powers of two, and the two or
  four like statements of each loop body as one call that runs them.

## Model

| member | source | states |
|---|---|---|
| `RadixTrees.RadixTree.Insert` | src/bits/radix_tree.c:442-934 | For every valid tree and every non-empty key of any length, `Valid()` (structural invariant, normal form, pools tied to the tree) is kept, and the map the tree stands for becomes the old one with exactly this key set to this value. |
| `RadixTrees.RadixTree.Get` | src/bits/radix_tree.c:936-1032 | For every key length up to the buffer's, the result satisfies `Answers` for the map and the whole buffer: a stored key gives its last value, and any other outcome is fixed exactly, also where a branch of 16 reads on behind the key. |
| `RadixTrees.RadixTree.CrossEdge` | src/bits/radix_tree.c:951-985 | An edge is crossed exactly when the key, or what was read behind it, still has all its nibbles; otherwise the outcome is a miss, as `Answers` requires. |
| `RadixTrees.RadixTree.TakeBranch` | src/bits/radix_tree.c:986-1020 | A branch is left by the key's next nibble, or by its immediate when the key is used up; a branch of 16 reads the next nibble of the buffer without asking, which happens exactly at a crowded key and makes the lookup one for the longer key. Every way to stop here is the outcome `Answers` allows. |
| `TrieLookup.ExactWhen` | src/bits/radix_tree.c:1004-1024 | For every set of stored keys, buffer and length: lookup equals a plain map's if and only if the key is stored, or it neither runs into a shorter stored key that ends a path nor strays, that is, is led through crowded prefixes to a longer stored key or out of the buffer. |
| `TrieLookup.BytesStray` | src/bits/radix_tree.c:1004-1012 | With keys of whole bytes a lookup can stray only if both the key and the key with one nibble more are crowded. |
| `TrieLookup.ReadOnHarmless` | src/bits/radix_tree.c:1004-1012 | A crowded key never stored, looked up in front of a byte 0xF0 or 0x20, is reported missing although the branch reads that byte. |
| `TrieLookup.ReadOnMisleads` | src/bits/radix_tree.c:1004-1012 | A concrete failure: with two crowded prefixes the lookup of one byte never stored returns the value of a two-byte key that lies in the buffer. |
| `TrieLookup.AnswerUnique` | src/bits/radix_tree.c:936-1032 | `Answers` leaves one outcome only, so the description of lookup is complete. |
| `TrieLookup.ShadowExample` | src/bits/radix_tree.c:1021-1024 | A concrete failure: with only the key 1 2 stored, looking up 1 2 3 4 returns the value of 1 2. |
| `TrieLookup.SameLengthExact` | src/cache.h:22-22 | When all stored keys have the length of the key looked up, as for the cache's 32-byte digests, lookup is exactly the map's. |
| `TrieLookup.SameLengthPlain` | src/bits/radix_tree.c:343-416 | With keys of one length no branch has an immediate and no full branch exists. |
| `TrieLookup.CellNormal` | src/bits/radix_tree.c:311-424 | Normal form: edges are not empty and lead to a branch or leaf; branches hold 2-4, 5-8, 9-16 or 9-17 entries by kind; a branch of 16 never has an immediate, a full one always, and immediates are leaves. |
| `TrieLookup.HeldOnce` | src/bits/radix_tree.c:477-530 | Ownership: every live cell is held by exactly one slot of the tree. |
| `TrieLookup.LeavesCountKeys` | src/bits/radix_tree.c:3-11 | The live leaves are as many as the stored keys. |
| `Arenas.Arena.AllAccounted` | src/bits/radix_tree.c:3-90 | In each node pool the live cells of the tree and the free stack partition the slots; nothing leaks and no slot is free twice. |
| `Arenas.Arena.StringsAccounted` | src/bits/radix_tree.h:406-443 | A string slot off the free stack holds the text of exactly one live edge, a long one. |
| `RadixTrees.RadixTree.SetPrev` | src/bits/radix_tree.c:211-253 | Walking the recorded path back ends; the slot at its end then holds the new node, or the branch there was replaced by a grown one held by the slot before, which itself never grows. |
| `RadixTrees.RadixTree.SetStep` | src/bits/radix_tree.c:218-251 | One step of the walk back: a branch grows exactly when it has no room for the entry, and to the kind its entries require. |
| `RadixTrees.RadixTree.PushPrev` | src/bits/radix_tree.c:426-440 | After the push the recorded path is again a chain of the tree, in which each step is held by the slot of the one before, that ends at the slot named; it starts anew at an edge. |
| `RadixTrees.RadixTree.InsertAtEdgeStart` | src/bits/radix_tree.c:478-529 | A mismatch on an edge's first nibble replaces the edge by a branch; the map gains exactly the new key. |
| `RadixTrees.RadixTree.InsertInsideEdge` | src/bits/radix_tree.c:559-657 | A mismatch, or the end of the key, inside an edge splits it; the map gains exactly the new key. |
| `RadixTrees.RadixTree.InsertAfterEdge` | src/bits/radix_tree.c:661-693 | A key that goes on past an edge to a leaf turns the leaf into an immediate of a new branch. |
| `RadixTrees.RadixTree.InsertBeforeEdge` | src/bits/radix_tree.c:730-814 | Special case 1, for a key that ends where a branch entry holds an edge: the map gains exactly the key, and the parent branch never grows here. |
| `RadixTrees.RadixTree.InsertAfterLeaf` | src/bits/radix_tree.c:838-889 | Special case 3, for a key that goes on past a leaf entry: the map gains exactly the key, and again the parent never grows. |
| `RadixTrees.RadixTree.InsertAtLeaf` | src/bits/radix_tree.c:901-909 | A stored key has its value overwritten. |
| `RadixTrees.RadixTree.InsertAtNone` | src/bits/radix_tree.c:910-929 | Where nothing is stored the rest of the key is hung, growing a full branch and its parent's pointer if need be. |
| `RadixTrees.ConsumeMatching` | src/bits/radix_tree.c:532-552 | The loop consumes the longest common run of nibbles of edge and key. |
| `Arenas.Arena.CreateEdge` | src/bits/radix_tree.c:51-90 | A new edge holds exactly the given nibbles, inline or in a string slot of its own; all other cells keep their contents. |
| `Arenas.Arena.TruncateEdge` | src/bits/radix_tree.h:406-428 | Shortening an edge keeps its first nibbles, moving text inline and freeing the string slot when it gets short; all other cells keep their contents. |
| `Arenas.Arena.RemoveEdge` | src/bits/radix_tree.h:438-443 | An edge is given back together with its string slot, if it has one. |
| `Arenas.Arena.FetchEdge` | src/bits/radix_tree.h:307-313 | The text found, inline or pooled, holds the nibbles of the edge. |
| `Arenas.Arena.InsertIntoBranchOrGrow` | src/bits/radix_tree.c:255-309 | Either the branch takes the entry in place, or a branch of the next kind holds the old entries and the new one and the old slot is free. |
| `Arenas.Arena.InsertIntoBranch4OrGrow` | src/bits/radix_tree.c:311-341 | A branch of 4 overwrites or appends the entry, or becomes a branch of 8. |
| `Arenas.Arena.InsertIntoBranch8OrGrow` | src/bits/radix_tree.c:343-390 | A branch of 8 overwrites or appends, or becomes a full branch when an immediate is among the entries and a branch of 16 otherwise. |
| `Arenas.Arena.InsertIntoBranch16OrGrow` | src/bits/radix_tree.c:392-416 | A branch of 16 takes a nibble entry in place and becomes a full branch for an immediate. |
| `Arenas.Arena.GetBranch` | src/bits/radix_tree.c:128-209 | The entry found is the branch's entry for the symbol, or none; stale symbols of free slots do no harm. |
| `FreeLists.FreeList.Insert` | src/bits/freelist.h:55-76 | A slot that was not live is handed out and the live slots gain exactly it, whether or not the pool grew. |
| `FreeLists.FreeList.MaybeGrow` | src/bits/freelist.h:34-53 | A pool with a free slot stays as it is; an exhausted one gets the next capacity, and exactly the slots between the old capacity and the new one are on the free stack. All live slots are kept. |
| `FreeLists.FreeList.Remove` | src/bits/freelist.h:84-87 | The live slots lose exactly the one given back. |
| `FreeLists.FreeList.Partition` | src/bits/freelist.h:7-13 | Free stack and live slots are disjoint, together are all slots, and the stack has no duplicate. |
| `Nibbles.PackThenUnpack` | src/bits/radix_tree.c:92-106 | Packing a nibble sets it and leaves every other nibble of the string alone. |
| `Nibbles.UnpackThenPack` | src/bits/radix_tree.c:92-106 | Writing back the nibble that is there changes nothing. |
| `Nibbles.NibblesOfByte` | src/bits/radix_tree.c:92-97 | The nibbles of a byte are its digits to base 16, the high one first. |
| `Nibbles.CopyKey` | src/bits/radix_tree.c:108-127 | Copying from an even or an odd offset preserves every nibble. |
| `Nibbles.EdgeMatches` | src/bits/radix_tree.c:958-982 | Comparing whole bytes of the realigned key and then an odd last nibble is the same as comparing nibble by nibble. |
| `ShaScalar.Custom` | src/sha256/x1/custom.c:42-88 | For every 8-byte input the output words are those of the schedule and compression of section 6.2.2 of FIPS 180-4 before the final addition. |
| `ShaScalar.Fused` | src/sha256/x1/fused.c:5-108 | The same words, with the first 32 schedule words folded. |
| `ShaScalar.FullyFused` | src/sha256/x1/fullyfused.c:5-260 | The same words, with schedule and rounds interleaved and constants folded. |
| `ShaConstants.PrimesInOrder` | src/sha256/x1/impl_common.h:5-16 | The list of 64 primes starts with the least prime and leaves none out. |
| `ShaConstants.RoundConstants` | src/sha256/x1/impl_common.h:5-16 | Every round constant is the first 32 bits of the fractional part of the cube root of its prime, as section 4.2.2 of FIPS 180-4 defines it: between two cubes of whole numbers. |
| `ShaConstants.InitialValue` | src/sha256/x1/custom.c:18-27 | Every word of the initial value is the first 32 bits of the fractional part of the square root of its prime (section 5.3.3). |
| `ShaSpec.RotrTurns` | src/sha256/x1/impl_common.h:18-23 | For every word and every amount in use, rotation moves the high bits down and brings the low ones in at the top. |
| `ShaSpec.ChChooses` | src/sha256/x1/impl_common.h:37-43 | Choice takes the bits of f where e has ones and those of g elsewhere. |
| `ShaSpec.MajCounts` | src/sha256/x1/impl_common.h:45-51 | Majority takes the common bits of a and b where they agree and those of c elsewhere. |
| `ShaScalar.LoadsAreNumbers` | src/sha256/x1/custom.c:55-56 | The two loads give the number whose digits to base 256 are the four bytes, the most or the least significant first. |
| `ShaSpec.Folded` | src/sha256/x1/fused.c:18-41 | Each folded schedule word of an 8-byte message equals the word of the recurrence. |
| `ShaScalar.RoundZeroIsRound` | src/sha256/x1/fullyfused.c:62-74 | A round that leaves the schedule word out is a round with word zero. |
| `ShaScalar.Normalize` | src/sha256/reverse.c:127-134 | Every word is byte-swapped and has its initial value taken off, in place. |
| `ShaScalar.NormalizedIsDigest` | src/sha256/reverse.c:116-134 | Normalising maps the standard digest of a message to exactly the words the implementations leave. |
| `ShaVector.LaneRound` | src/sha256/x4/impl_common.h:70-139 | Every lane of a vector round, whose sums associate differently, is the scalar round. |
| `ShaVector.VFolded` | src/sha256/x4/cyclic_x4.c:81-181 | Lane by lane, the folded schedule words as the vector code sums them are those of the recurrence. |
| `ShaVector.VLoopWord` | src/sha256/x4/cyclic_x4.c:184-192 | Lane by lane, the schedule word of the later rounds is that of the recurrence. |
| `ShaFour.LoadMessages` | src/sha256/x4/cyclic_x4.c:69-92 | Byte swap and interleaving put the two big-endian words of message i in lane i. |
| `ShaFour.MessageRounds4` | src/sha256/x4/cyclic_x4.c:51-79 | After sixteen rounds every lane is in the state of its message. |
| `ShaFour.FoldedRounds4` | src/sha256/x4/cyclic_x4.c:81-181 | So it is after 32 rounds, with slot j holding schedule word j + 16. |
| `ShaFour.CircleStep` | src/sha256/x4/cyclic_x4.c:183-194 | Sixteen slots suffice: the new word overwrites the one sixteen back, and every word still needed is in its slot. |
| `ShaFour.CyclicRounds` | src/sha256/x4/cyclic_x4.c:183-212 | Rounds 32 to 63 over the sixteen slots end in the state of 64 rounds. |
| `ShaFour.LinearRounds` | src/sha256/x4/reverse_fullyfused_x4.c:218-250 | The same rounds over a buffer with a slot for every word, from any round to any later one. |
| `ShaFour.Transpose` | src/sha256/x4/cyclic_x4.c:216-260 | The shuffles transpose four vectors. |
| `ShaFour.Cyclic` | src/sha256/x4/cyclic_x4.c:11-271 | Each of the four digests is the one of its message. |
| `ShaFour.FullyFused4` | src/sha256/x4/fullyfused_x4.c:11-274 | Each of the four digests is the one of its message. |
| `ShaReverse.UndoRound` | src/sha256/x4/reverse_fullyfused_x4.c:27-42 | What a round did to register d follows from the state after it, whatever the schedule word. |
| `ShaReverse.EarlyRejectSound` | src/sha256/x4/reverse_fullyfused_x4.c:27-44 | For every message, register a after round 56 is the value computed from the final state alone, so rejecting on it loses no match. |
| `ShaReverse.MatchingLanes` | src/sha256/x4/reverse_fullyfused_x4.c:49-306 | The lanes reported are exactly those whose value reaches the target, also when the batch is given up after round 56. |
| `ShaReverse.BytesAreDigits` | src/sha256/reverse.c:31-35 | The eight bytes hashed for a value are its digits to base 256, the least significant first. |
| `ShaReverse.HalvesSwapped` | src/sha256/reverse.c:31-35 | So the schedule starts from the two halves of the value with their bytes swapped, the low half first. |
| `ShaReverse.ReverseFullyFused4` | src/sha256/x4/reverse_fullyfused_x4.c:19-321 | For every start, end and target for which the search ends: the result is the first match in the order in which values are tried, if the search gets to it, and zero if not. |
| `ShaReverse.ReverseX4` | src/sha256/reverse.c:45-72 | The same result, by full digests. |
| `ShaReverse.Reverse` | src/sha256/reverse.c:24-43 | For every start, end and target for which the search ends, an end of 2^64 - 1 with a match included: the first match in the order from start on, round the largest value, if the search gets to it, and zero if not. |
| `ShaReverse.ReturnsOne` | src/sha256/reverse.c:24-72 | The description of a search's result leaves one value only. |
| `ShaReverse.TriedCovers` | src/sha256/x4/reverse_fullyfused_x4.c:46-47 | Every value of the range is tried, in order and without wrapping, and at most three past its end when the guard can fail. |
| `ShaReverse.HaltsExactly4` | src/sha256/x4/reverse_fullyfused_x4.c:46-321 | A four-at-a-time search ends, at a match or at its guard, if and only if `end < 2^64 - 4 + start % 4` or some 64-bit value at all reaches the target. |
| `ShaReverse.HaltsExactly1` | src/sha256/reverse.c:31-42 | A search of one value at a time ends if and only if `end < 2^64 - 1` or some 64-bit value at all reaches the target. |
| `ShaReverse.FindsLeast` | src/sha256/reverse.c:24-72 | If some value of the range matches, each of the searches returns the least; so they agree. |
| `ShaReverse.OnlyMatches` | src/sha256/x4/reverse_fullyfused_x4.c:308-320 | A result other than zero matches; it lies at most three past the range when the guard can fail, and inside the bound when values are tried one at a time. |
| `ShaReverse.StopsExactly` | src/sha256/x4/reverse_fullyfused_x4.c:312-318 | The guard of the batch loop alone fails at some batch if and only if `end < 2^64 - 4 + start % 4`. |
| `ShaReverse.GuardNeverFails` | src/sha256/x4/reverse_fullyfused_x4.c:312-318 | A concrete failure: from 0 to 2^64 - 4 the guard holds after every batch. |
| `ShaReverse.ZeroIsAmbiguous` | src/sha256/reverse.c:24-72 | For every search, four at a time or one at a time, zero is returned exactly when no match is tried before zero itself is tried and matches: for nothing found and for a match at zero alike. |
| `Sort.RadixSort32` | src/bits/sort.c:39-86 | For every length, also when destination and source are one array, the destination is sorted and a permutation of the source, and nothing past the length changes. |
| `Sort.RadixSort16` | src/bits/sort.c:3-37 | The same for 16-bit numbers and two passes. |
| `Sort.ScatterPass` | src/bits/sort.c:66-70 | A scatter pass leaves exactly the buckets of its digit one after the other; every index is in range, and the other digits' counts stay. |
| `Sort.PassIsStable` | src/bits/sort.c:66-85 | A pass leaves every bucket as it was: it is stable. |
| `Sort.PassPermutes` | src/bits/sort.c:66-85 | A pass permutes. |
| `Sort.PassSorts` | src/bits/sort.c:66-85 | A pass on digit k takes numbers sorted by the lower digits to numbers sorted by one digit more. |
| `Sort.FourPassesSort` | src/bits/sort.c:66-85 | Four passes sort, and permute at each stage. |
| `Sort.TotalsServe` | src/bits/sort.c:50-64 | The totals counted once on the source are right for every later pass, whatever the order of the numbers by then. |
| `Sort.CountAll` | src/bits/sort.c:45-64 | After the sweep and the running sums, each count is where the bucket of its digit ends; no 32-bit count overflows. |
| `PriorityHeaps.PriorityHeap.ShiftUp` | src/bits/priority_heap.c:42-63 | A rising node restores the heap, permutes, and reaches the root unless the root is at least as high; the vector is the one `Up` gives. |
| `PriorityHeaps.PriorityHeap.ShiftDown` | src/bits/priority_heap.c:65-102 | A sinking node restores the heap and permutes; the loop ends; the vector is the one `Down` gives. |
| `PriorityHeaps.PriorityHeap.Insert` | src/bits/priority_heap.c:104-117 | The heap gains exactly the entry. |
| `PriorityHeaps.PriorityHeap.GetMax` | src/bits/priority_heap.c:136-147 | A largest entry, if there is any. |
| `PriorityHeaps.PriorityHeap.ExtractMax` | src/bits/priority_heap.c:149-165 | A largest entry is returned and the heap loses exactly it. |
| `PriorityHeaps.PriorityHeap.Remove` | src/bits/priority_heap.c:119-134 | The heap order is kept, what remains is given by `Removed` for every heap and index, and its places by `Without`, which `CleanupScans` analyses. |
| `PriorityHeaps.RemoveExact` | src/bits/priority_heap.c:124-133 | Removal deletes exactly entry i if and only if i is the root, or the root's priority is below 2^32 - 1, or the root holds the same element. |
| `PriorityHeaps.RemoveTakesRoot` | src/bits/priority_heap.c:124-133 | A concrete failure: below a root of the highest priority, removing the other entry takes out the root. |
| `PriorityHeaps.DrainOrder` | src/bits/priority_heap.c:149-165 | Repeated extraction gives the entries, with non-increasing priorities. |
| `SpinLocks.StepKeepsInv` | src/bits/spin.c:9-39 | Every step of any thread, load and swap apart, keeps: word = readers + 2^31 * writers, at most one writer, none beside a reader. |
| `SpinLocks.AlwaysExact` | src/bits/spin.c:5-39 | So it holds in every state of every run of any number of threads. |
| `SpinLocks.WriterAlone` | src/bits/spin.c:26-35 | While a thread writes no other thread reads or writes. |
| `SpinLocks.OpenExactly` | src/bits/spin.c:26-35 | The word is zero exactly when nobody holds the lock. |
| `SpinLocks.LoadsExactly` | src/bits/spin.c:9-12 | A thread that does not hold the lock can always load, and what it loads has no writer bit. |
| `SpinLocks.ReaderEntersExactly` | src/bits/spin.c:9-19 | A reader can enter if and only if the word is still what it loaded, also beside other readers; then there is one reader more and nobody else moves. |
| `SpinLocks.WriterEntersExactly` | src/bits/spin.c:22-39 | A writer can enter if and only if the word is zero; readers and writers can always leave, and a writer leaves zero behind. |
| `Publication.CopiesArePublished` | src/scheduler/sched_priority.c:121-190 | Under every interleaving of one submitter and any number of workers copying entry by entry, the heap a worker copied is a whole heap in order, and the one published with the job number it recorded. |
| `Publication.LeavesUpToDate` | src/scheduler/sched_priority.c:184-190 | In every run a worker about to leave the lock has recorded the newest job number and the heap published under it. |
| `Publication.ChecksExactly` | src/scheduler/sched_priority.c:185-188 | A worker that has recorded the newest number keeps its own heap and leaves; one with an older number starts to copy. |
| `Publication.Fetches` | src/scheduler/sched_priority.c:184-190 | From every reachable state in which no writer and fewer than 2^31 readers hold the lock, a worker outside can go in, copy and come out with the newest heap as its own, unless it had recorded that already. |
| `Publication.PublishesAny` | src/scheduler/sched_priority.c:121-150 | From every reachable state in which nobody holds the lock, a submission can publish any heap that may follow the one read; it is then the one read, under the next number. |
| `Publication.EveryHeapArrives` | src/scheduler/sched_priority.c:121-190 | Every run in which nobody holds the lock can go on so that any heap that may follow is published, and a worker outside has it as its own under the newest number. |
| `Publication.NextKeepsInv` | src/scheduler/sched_priority.c:121-190 | Every step of submitter or worker keeps the protocol invariant. |
| `Publication.HistoryGrows` | src/scheduler/sched_priority.c:141-150 | What was published under a job number never changes. |
| `Publication.PublishedInSteps` | src/scheduler/sched_priority.c:110-150 | In every run the first heap is empty and each published heap is the one before it with some entries dropped and one added, in heap order: the step that `BuildNext` makes. |
| `BlockDispense.CutsExactly` | src/scheduler/sched_priority.c:94-101 | For every start and end: blocks 0 to block_count hold exactly the values of the range, each in one block, if and only if none of the 64-bit sums wraps, or, with the start above the end, the wrapped blocks stay above the end. |
| `BlockDispense.AllValuesNotCut` | src/scheduler/sched_priority.c:94-101 | A concrete failure: the range of all values has a single block, and its last value is in none. |
| `BlockDispense.BackwardBlock` | src/scheduler/sched_priority.c:206-211 | A concrete failure with the start above the end: from 2^63 down to 5 a wrapped block holds the values 0 to 5. |
| `BlockDispense.OnlyLastEmpty` | src/scheduler/sched_priority.c:206-211 | For every range with values: at most the last block is empty, and it is exactly when the range does not end one value into it, if and only if none of the 64-bit sums wraps. |
| `BlockDispense.CoversExactly` | src/scheduler/sched_priority.c:94-101 | For every start and end: every value of the range is in some block if and only if there is no value or the 64-bit sums fit; here the block past the end may start at 2^64 exactly. |
| `BlockDispense.ClaimsCount` | src/scheduler/sched_priority.c:206-207 | Until an answer or a cancellation the claims are 0, 1, 2, ... whoever makes them. |
| `BlockDispense.ClaimedOnce` | src/scheduler/sched_priority.c:206-222 | Under any interleaving each block is claimed at most once until then. |
| `BlockDispense.CounterExactly` | src/scheduler/sched_priority.c:30-34 | After every history of additions, answers and cancellations, the counter is the number of additions since the last answer or cancellation, counted from the block count if there was one and from zero if not. |
| `BlockDispense.AfterStore` | src/scheduler/sched_priority.c:160-169 | After an answer or a cancellation every addition finds the block count or more, and finds the count itself exactly when it is the first since the last of these. |
| `BlockDispense.OneAfterStore` | src/scheduler/sched_priority.c:206-222 | So of the additions between one answer or cancellation and the next, at most one finds a number up to the block count. |
| `BlockDispense.OverClaimMeansAll` | src/scheduler/sched_priority.c:209-226 | For every start and end: a claim above the block count, before any answer or cancellation, means that every value was claimed before it if and only if every value is in a block. |
| `BlockDispense.AllClaimedExactly` | src/scheduler/sched_priority.c:206-211 | For every start and end: after any number of claims, up to 2^64 and before any answer or cancellation, all values are claimed if and only if there are none, or the sums fit and the blocks that hold values are claimed. |
| `BlockDispense.DoneTooEarly` | src/scheduler/sched_priority.c:31-39 | For every start and end, after fewer than 2^64 claims and before any answer or cancellation: the test for a finished job holds with values unclaimed exactly when there are values, the block count is reached, and either the sums do not fit or the counter stands at the block count and the range ends one value into its last block. A range of one value counts as finished before any claim. |
| `PriorityScheduling.PriorityScheduler.Submit` | src/scheduler/sched_priority.c:71-153 | The cache is drained and asked; if it has the digest, its answer is given and nothing else changes. Otherwise the published heap is the old one without the dropped jobs and with the new one; a job is dropped exactly if some test loaded a reference count of zero and a block index at its block count or past it; a job of which every test found a worker inside or blocks left stays in pool and heap; the pool holds exactly the jobs in the heap, and the heap workers may be copying is untouched. |
| `PriorityScheduling.PriorityScheduler.Cleanup` | src/scheduler/sched_priority.c:124-136 | For every outcome of the atomic loads: the scan ends although removal moves entries about, the slots it tests and the heap it leaves are those of `TestsBy` and `ScanBy`, a job is dropped exactly if some test loaded a reference count of zero and a block index at its block count or past it, and heap and pool lose the same jobs. |
| `PriorityScheduling.DroppedIsDone` | src/scheduler/sched_priority.c:36-39 | When the block index loaded is what the counter holds, the jobs dropped are exactly those that some test found done, by the test of the workers, with nobody inside. |
| `PriorityScheduling.BusyStay` | src/scheduler/sched_priority.c:124-139 | A job of which every test found a worker inside, or blocks left, is not dropped and is in the next heap. |
| `CleanupScans.OvertakesExactly` | src/bits/priority_heap.c:119-165 | For every heap, ties or not, one removal moves the last entry behind the scan if and only if that entry, sinking from the root, reaches neither the place of the entry removed nor one after it. |
| `CleanupScans.Sinks` | src/bits/priority_heap.c:65-102 | Where sinking puts every entry: a place reached, that is, one all of whose way down is higher than what sinks and beats its siblings, gets the entry of its reached child, or what sank; all others keep theirs. |
| `CleanupScans.SlipsExactly` | src/bits/priority_heap.c:119-165 | For every heap, ties or not, and every set of finished jobs: with none behind the scan, one removal leaves one behind it if and only if a finished entry further on rises past the scan or the last entry is finished and overtakes. |
| `CleanupScans.UntiedSlips` | src/bits/priority_heap.c:119-165 | When no two entries before the one removed tie, nothing further on rises past the scan, and the last entry overtakes if and only if it is not lower than the parent of the one removed. |
| `PriorityScheduling.CleanupDropsAll` | src/scheduler/sched_priority.c:124-136 | While nothing finishes meanwhile, in every heap the copy can be, ties or not: take the last entries, one fewer than there are finished jobs. The scan drops every finished job if no two unfinished jobs tie and the finished ones among these entries are lower than all unfinished ones, or if these entries are unfinished and none is lower than a finished one. |
| `PriorityScheduling.CleanupDropsOne` | src/scheduler/sched_priority.c:124-136 | A single finished job is always dropped, ties or not. |
| `PriorityScheduling.CleanupDropsTwo` | src/scheduler/sched_priority.c:124-136 | With exactly two finished jobs, ties or not, the scan drops both if and only if it does not miss the second: as the last entry by overtaking, otherwise by rising past the first. |
| `CleanupScans.ScanMisses` | src/scheduler/sched_priority.c:124-136 | A concrete failure: a heap of six jobs with distinct priorities, two of them finished, of which the scan leaves one. |
| `CleanupScans.TieMisses` | src/scheduler/sched_priority.c:124-136 | A concrete failure with ties: of two finished jobs, lower than six equal unfinished ones, the scan leaves one, though it is lower than the parent of the other. |
| `CleanupScans.OvertakenAndDropped` | src/scheduler/sched_priority.c:124-136 | With three finished jobs an entry that overtook the scan can be moved back by a later removal and dropped, so overtaking once does not decide. |
| `PriorityScheduling.PriorityScheduler.HeapAndFreePartition` | src/scheduler/sched_priority.c:107-139 | After every submission each slot below the capacity is either on the free stack or in exactly one entry of the published heap. |
| `PriorityScheduling.Schedule` | src/scheduler/sched_priority.c:192-227 | A worker gets the block whose number its last addition to the job's counter found, of the highest-priority job left in its heap; before it, one addition each found the jobs passed over used up, in order of priority, and with nothing found the heap is empty. |
| `PriorityScheduling.SkippedIsOver` | src/scheduler/sched_priority.c:206-226 | After fewer than 2^64 additions, a job passed over as used up was answered or cancelled before; or else all its values were claimed exactly when there are none or the 64-bit sums fit. |
| `PriorityScheduling.HandedOutOnce` | src/scheduler/sched_priority.c:206-222 | Until an answer or a cancellation, no addition before or after finds the number a worker got, up to the wrap after 2^64 additions. |
| `RandScheduling.RandScheduler.Submit` | src/scheduler/sched_rand.c:41-79 | The cache is drained and asked; if it has the digest, its answer is given and no job is made. Otherwise the job enters the ring with priority at least one, or is dropped when the ring is full; everything else is kept. |
| `RandScheduling.RandScheduler.ProcessPending` | src/scheduler/sched_rand.c:106-119 | All that waited is appended to the list in order, with the priority sum kept. |
| `RandScheduling.RandScheduler.Cancel` | src/scheduler/sched_rand.c:121-140 | Exactly the listed job of that number is removed and the walk reset; a job still in the ring stays. |
| `RandScheduling.RandScheduler.Walk` | src/scheduler/sched_rand.c:172-188 | The walk ends, exactly the drawn offset round the circle of priorities, at the place `WalkEnds` gives: an offset up to what remains of the current job stays in it, and beyond that each job owns the points after its first up to and with its last. |
| `RandScheduling.WalkEndsOnce` | src/scheduler/sched_rand.c:172-188 | That leaves one job and one place in it. |
| `RandScheduling.RandScheduler.Schedule` | src/scheduler/sched_rand.c:142-214 | The task is the next slice of the job at which the walk ends, drawn modulo the sum of the priorities; the job goes on from the slice's end, with the walk left where it ended, and leaves the list exactly when the slice reaches its end, with the walk reset; the sum and the books are kept. |
| `RandScheduling.JobsHandedOutWhole` | src/scheduler/sched_rand.c:190-209 | After any run, an accepted job neither queued nor cancelled was handed out in slices that run end to end from its start to its end. |
| `RandScheduling.RunsToEndExactly` | src/scheduler/sched_rand.c:194-203 | The slices go up and stay inside the range if and only if the last 64-bit sum of start and block size does not wrap. |
| `RandScheduling.SliceWraps` | src/scheduler/sched_rand.c:194-203 | A concrete failure: near the largest value a slice ends far below its start. |
| `RingBuffers.RingBuffer.Push` | src/bits/ringbuffer.h:33-41 | The queue gains the element at its end, unless it holds one less than the size. |
| `RingBuffers.RingBuffer.Pop` | src/bits/ringbuffer.h:43-51 | The queue loses its oldest element, which is returned; an empty one leaves the result alone. |
| `RingBuffers.LengthExact` | src/bits/ringbuffer.h:17-18 | In each state the wrapping length formula gives the queued count if and only if the head is not behind the tail or the size divides 2^32. |
| `RingBuffers.LengthWrong` | src/bits/ringbuffer.h:17-18 | A concrete failure: in a ring of three with two elements queued the formula gives none. |
| `CacheDrain.PoppedInOrder` | src/bits/ringbuffer.h:33-51 | With one producer and one consumer interleaved at single loads and stores, the popped values are a prefix of the accepted pushes. |
| `CacheDrain.DrainStopsAtFirstHead` | src/cache.c:22-40 | A drain's test finds its end exactly when it has popped what was accepted when it first read the head; the tree then has all of that, in order. |
| `CacheDrain.DrainEnds` | src/cache.c:22-40 | The step by which a drain ends is taken exactly when all that was accepted at its start is popped, and then the tree has that and nothing else of the pushes. |
| `CacheDrain.DrainAdvances` | src/cache.c:22-40 | A drain can always take a step, and each of its steps brings it nearer to its end by a bound that no push changes. |
| `CacheDrain.DrainCompletes` | src/cache.c:22-40 | Every run inside a drain can go on to the end of the drain, which takes exactly what was accepted at its start. |
| `CacheDrain.PushGivesUp` | src/bits/ringbuffer.h:33-41 | A push is given up exactly if the ring was full when it loaded the tail; an entry is accepted by the last step of a push and by no other. |
| `CacheDrain.PushAdvances` | src/bits/ringbuffer.h:33-41 | A push can always take its next step and ends after four, or three if it gives up. |
| `CacheDrain.NeverPopsNothing` | src/cache.c:30-32 | A pop inside a drain never meets an empty ring, so no stale entry is inserted. |
| `Caches.Cache.ProcessPending` | src/cache.c:22-40 | The ring is emptied and the tree's map becomes the old one with the pending entries applied in order. |
| `Caches.Cache.InsertPending` | src/cache.c:42-50 | The entry waits in the ring, or is dropped when the ring is full; the tree is untouched. |
| `Caches.Cache.Answer` | src/scheduler/sched_priority.c:77-91 | After draining, the tree answers exactly like a map from 32-byte digests to values. |
| `Caches.LastWins` | src/cache.c:30-39 | The last entry for a digest is the one the map keeps. |
| `Caches.DigestsDiffer` | src/cache.c:33-38 | Different digests have different nibble keys. |

## Left out

- RadixTrees.RadixTree.Insert: indices are unbounded, so the 29-bit index field of a node pointer and the 16-bit edge length are not modelled; keys are limited by the string slot size as in the code.
- FreeLists.FreeList.MaybeGrow: the growth factor is exact; the code's float product loses low bits above 2^24 slots, and 32-bit capacities can wrap.
- The variant of the tree that allocates edge strings with malloc, allocation failure, prefetching, and printing and destroying a tree.
- Arenas.Arena.MoveStrIn: the code copies `old_idx` bytes, which for small key sizes is more than a string slot holds; the model copies what the slot holds. The surplus is not part of the edge's text.
- The order in which allocations of one insertion interleave between different pools; it shows in no slot's contents.
- ShaReverse.Reverse: searches that do not end are excluded, by the exact condition for ending.
- The assembly versions, and the eight-message versions x4x2 and x8, which repeat the lane argument with other shuffles.
- Sort.RadixSort32: bit masks are written as arithmetic, not as operations on bit-vectors.
- PriorityHeaps.PriorityHeap.Insert: a capacity of zero is excluded, since doubling it leaves no room for the entry, and the capacity does not wrap.
- PriorityScheduling.PriorityScheduler.Submit: locks are taken in the order of the code but modelled in `Publication`; atomic loads during cleanup are arbitrary, and the job fields workers read are not followed further.
- PriorityScheduling.Schedule: copying the heap is in `Publication`, the locks in `SpinLocks`; the wait for a newer job and the target hash kept by a worker are left out, and a slot reused since the copy is read as it is.
- PriorityScheduling.CleanupDropsAll: the condition is sufficient and not necessary. A finished job that overtakes the scan can be moved back by a later removal (`CleanupScans.OvertakenAndDropped`), so the outcome for three or more finished jobs depends on the whole course of the removals; what each single removal does is exact (`CleanupScans.SlipsExactly`).
- Publication.CopiesArePublished: job numbers do not wrap; waking and waiting of workers is not modelled, so that every job eventually runs is not claimed.
- BlockDispense.ClaimedOnce: at most 2^64 claims, after which the counter itself wraps.
- The safety of a job slot between a claim and the reference count taken after it, and the reclaiming of answered jobs, whose reference is never given back.
- RandScheduling.RandScheduler.Schedule: the priority sum and the job numbers do not wrap, and the draw of the random number is a parameter; digest and recipient of a job are carried unchanged and not modelled.
- Several producers on one ring: a push is not atomic as a whole.
- The linked-list scheduler, the page allocator, sockets, the server loop, signals, the worker pool, notifying recipients, benchmarks and the assembler tool.
