# Verified model of the C collections

This project models the repository's collection libraries in Dafny and proves what they are for:
the AVL tree (libavl), the bucketed hash table (libfh), the intrusive list and the LRU cache on top of
it (liblru), the channel (libchannel), the thread pool (libthp), the hash function wyhash with its
arithmetic (libfh/wyhash.h) and the dynamic vector (libvector).

Structures that the C code updates in place are classes over heap objects, each method proved against
a function of its old state; that function is then proved to be a map, a list, a most-recent-first
cache or a queue. The claims about threads are made on state machines whose steps are the stretches
of code between two points where another thread can come in, for any number of threads and every
interleaving.

| file | what it holds |
|---|---|
| CTypes, Words, FiniteSets | pointers, strings under strcmp, 64-bit words and bitwise operations on numbers, sizes of sets and counts of threads |
| SortedEntries | sorted key/payload lists and the finite maps they stand for |
| AvlTree, Avl, AvlRuns | the tree as a value; the nodes and rotations on the heap; runs of calls and the logarithmic depth of the recursion |
| FhChain, FhBuckets, FhEnum, Fh | one chain against a map; buckets on the heap; enumeration, of chains seen at one time or at different times; the table |
| FhProtocol, FhAnswers | the table under any number of threads: h_elements counted late, enumerations that others interfere with; what each call returns |
| LruList, LruSpec, LruLedger, Lru | the intrusive list; the abstract cache and its theory; the same judged by its answers alone; the cache over list and table |
| LruProtocol, LruRuns, LruAnswers, LruOrder | the cache under any number of threads: the ownership invariant; no deadlock, the end of every call, and when lru_add gives up; what each call returns; which slot is evicted |
| ChannelSpec, Channel, ChannelProtocol | a pass through the channel's mutex; the linked elements; any number of blocking threads |
| ThreadPool, PoolRuns, PoolThreads, PoolAnswers | the pool as a state machine and its invariant; conservation, waiting, shutdown; the same pool with threads that sleep and are woken; the count thp_add returns and the order of the jobs |
| Mum, Wyhash, WyhashCounts, Popcount, MakeSecret, WyrandPeriod | 64 by 64 bit product and range reduction; the hash; that every byte of its key counts; the bit count; make_secret; the generator it draws from |
| Vector | the growing and shrinking array |

What the reader should know before the table:

- `lru_add` evicts before it tests for a duplicate. `LruSpec.Add` says so, and `LruSpec.AddOfPresentKey`
  gives the exact condition under which adding a key that is present leaves the cache alone: it was not
  full (or it holds one entry, which is replaced by itself).
- The comment at liblru/lru.c:89 says that when `lru_add` gives up, the free list and the list are both
  empty. Under threads that is not so: between the two calls another thread can give a slot back.
  `LruRuns.GivesUpExactly` says when it can give up at all: if and only if more calls of `lru_add` than
  the cache has slots, or a call of `lru_clear`, may be under way with it. In the second case it can
  return LRU_NO_MEMORY although every slot is free (`LruRuns.GivesUpWithAllFree`);
  `LruProtocol.NoMemoryMeansNothingLinked` says what holds whenever it does.
- `ll_slot_free` and `ll_slot_add_to_top` do not look at all that they rely on. `LruList.FreedExactly` and
  `LruList.AddedExactly` say for which slots they leave a sound list, and
  `LruProtocol.StepsMeetNoSurprise` that the cache gives them no others.
- The loop of `fh_hash_size` does not end for sizes that need more than 2^31 (`Fh.HashSizeEnds`).
- `thp_wait` keeps the pool's mutex while it waits, so its answer for a wait that is already running
  (libthp/thp.c:158-163) can never be given, and a `thp_add` made meanwhile is not counted by it.
- `thp_destroy` on a pool created with no threads hangs if a job was added: `PoolThreads.EmptyPoolHangs`
  is such a run, and `PoolThreads.DestroyOutcome` says that there is no other way for it to hang.
- `fh_clean` on an empty table returns FH_EMPTY_HASHTABLE, not FH_OK.
- `ll_slot_move_to_top` guards against slots that a concurrent call has taken away
  (liblru/ll.c:279-287). With lru_check holding the shard's lock this guard meets dangling slots only,
  never free ones (`LruProtocol.StepsMeetNoSurprise`).

## Model

| member | source | states |
|---|---|---|
| CTypes.LessTotalOrder | libavl/avl.c:81-92 | the strcmp order the tree relies on is total: of two different keys exactly one is less |
| Avl.RotateRight | libavl/avl_internal.c:44-59 | the pointer rotation on the same nodes gives the rotated tree, stored heights included |
| Avl.RotateLeft | libavl/avl_internal.c:62-77 | the same for the left rotation |
| AvlTree.RotateRightKeeps | libavl/avl_internal.c:44-59 | a right rotation keeps the entries and their order, of any tree |
| AvlTree.RotateLeftKeeps | libavl/avl_internal.c:62-77 | so does a left rotation |
| AvlTree.RebalanceInsertedRepairs | libavl/avl.c:99-128 | after an insertion into a subtree, choosing the rotation by comparing keys always matches the heavy grandchild, and the result is balanced with exact heights and has grown by at most one |
| AvlTree.InsertCorrect | libavl/avl.c:73-129 | inserting keeps order, exact heights and balance, adds exactly the new binding and leaves an existing payload alone; the height grows by at most one |
| Avl.InsertNode | libavl/avl.c:73-129 | the recursive insertion on the heap computes the specified tree, reusing the nodes and allocating only new ones |
| Avl.AvlHandle.Insert | libavl/avl.c:132-140 | the map gains the binding, or stays as it is when the key is bound |
| AvlTree.SearchCorrect | libavl/avl.c:143-161 | searching an ordered tree is looking up its entries; a missing key gives NULL |
| Avl.SearchNode | libavl/avl.c:143-161 | the search on the heap is the search of the tree |
| Avl.AvlHandle.Search | libavl/avl.c:164-171 | the payload the map has, or NULL |
| Avl.MinValueNode | libavl/avl.c:175-182 | the walk to the left ends at the node of the smallest key |
| AvlTree.MinIsFirst | libavl/avl.c:175-182 | that key is the first of the subtree in order: the successor |
| AvlTree.RebalanceDeletedRepairs | libavl/avl.c:247-276 | after a deletion, choosing the rotation by the heavy child's balance repairs every node whose subtrees differ by two |
| AvlTree.DeleteBalanced | libavl/avl.c:185-277 | deleting keeps exact heights and balance and lowers the tree by at most one |
| AvlTree.DeleteEntries | libavl/avl.c:185-277 | it removes exactly the given key and hands out that key's payload, or what was there before when the key is missing |
| AvlTree.DeleteFoundEntries | libavl/avl.c:202-236 | at the node itself too, whether its child or its successor is copied over it |
| AvlTree.DeleteOnlyChild | libavl/avl.c:207-223 | the only child of a balanced node is a leaf, so copying it over the node loses nothing |
| AvlTree.DeleteCorrect | libavl/avl.c:185-291 | all of it together: an AVL tree again, the key gone, its payload returned |
| Avl.DropOnlyChild | libavl/avl.c:207-223 | on the heap: the child copied over the node leaves the specified tree |
| Avl.ReplaceBySuccessor | libavl/avl.c:224-235 | on the heap: the successor's binding is taken over and the successor deleted |
| Avl.DeleteNode | libavl/avl.c:185-277 | the recursive deletion on the heap computes the specified tree and payload without new nodes |
| Avl.AvlHandle.Del | libavl/avl.c:280-291 | the map loses exactly the key; the payload it had is returned, or NULL |
| AvlRuns.PerformRefinesMap | libavl/avl.c:132-291 | one call on the tree returns what it returns on the map, and leaves the map's tree |
| AvlRuns.RunRefinesMap | libavl/avl.c:132-291 | so does any run of calls |
| AvlRuns.BalancedIsFull | libavl/avl_internal.c:32-41 | a tree of height h has at least Fib(h + 2) - 1 keys |
| AvlRuns.RecursionIsLogarithmic | libavl/avl.c:73-291 | after any run of calls the next one, be it an insertion, a search or a deletion with its descent to the successor, recurses no deeper than a logarithm of the number of keys |
| FhChain.MiniHash | libfh/fh.c:50-53 | a mini-hash is never one of the reserved values 0 to 4 and fits a byte |
| FhChain.ScanFinds | libfh/fh.c:899-929 | for any hash function, the scan that compares keys only on equal mini-hashes finds a key exactly when the chain's map binds it, at one place, with its payload |
| FhChain.FillHolds | libfh/fh.c:522-577 | filling a free entry adds exactly the binding |
| FhChain.FreeHolds | libfh/fh.c:876-892 | clearing an entry removes exactly the binding |
| FhChain.DropHolds | libfh/fh.c:833-850 | unlinking a bucket with nothing in it loses no binding |
| FhChain.OtherChain | libfh/fh.c:486-497 | what happens to one key's binding does not touch a chain with another index |
| FhBuckets.FindSlotInBucket | libfh/fh.c:899-929 | the scan over the linked buckets returns a matching entry, or there is none in the chain |
| FhBuckets.ReturnEmptySlotInBucket | libfh/fh.c:733-763 | the first free entry of the chain is claimed; a bucket is added only when all are taken |
| FhBuckets.DeallocateBucketIfEmpty | libfh/fh.c:814-854 | exactly a bucket without entries is unlinked, from wherever it stands; the assert(0) after the search is not reached |
| Fh.HashSize | libfh/fh.c:58-64 | the smallest power of two that is at least s + s/2, both in unsigned arithmetic of 32 bits |
| Fh.HashSizeEnds | libfh/fh.c:58-64 | the doubling ever reaches s + s/2 if and only if that is at most 2^31 |
| Fh.LockCount | libfh/fh.c:163-182 | one lock for a small table, otherwise the bit length of dim |
| Fh.ClaimHolds | libfh/fh.c:522-577 | claiming and filling an entry gives a chain that stands for the map with the new binding, without empty buckets |
| Fh.FillInChain | libfh/fh.c:522-577 | the same for the linked buckets |
| Fh.FreeInChain | libfh/fh.c:876-897 | clearing an entry and unlinking its bucket gives a chain that stands for the map without the key, without empty buckets |
| Fh.FhTable.constructor | libfh/fh.c:119-212 | the new table is the empty map |
| Fh.FhTable.HashIndex | libfh/fh.c:486-493 | hash and (dim - 1) is the hash modulo dim, so the index assertion holds |
| Fh.FhTable.Insert | libfh/fh.c:475-583 | the map gains the binding and the chain's index is returned; a bound key is left alone and reported; h_elements stays the number of bindings |
| Fh.FhTable.Get | libfh/fh.c:995-1040 | the payload and FH_OK, or NULL and FH_ELEMENT_NOT_FOUND, as the map has it |
| Fh.FhTable.Del | libfh/fh.c:768-791 | the map loses exactly the key; a missing key is reported |
| Fh.FhTable.Unfill | libfh/fh.c:857-897 | the entry found goes, its bucket too if it was the last in it, and the table is sound again |
| Fh.ScanChain | libfh/fh.c:1132-1162 | whatever the chain holds when its lock is taken, its used entries are appended in order, never beyond the n the array was allocated for |
| Fh.TakeEnough | libfh/fh.c:1130 | leaving the loop early with n elements loses nothing when there are n in all |
| FhEnum.EnumerationOfSnapshots | libfh/fh.c:1097-1184 | each chain seen at its own time, with its own state of the table: into an array for n go at most n elements, no key twice, each as its own chain bound it then, and all of them while the array is not full |
| FhEnum.EnumerationComplete | libfh/fh.c:1097-1184 | when the table does not change meanwhile, every binding is listed exactly once, and there are as many elements as bindings |
| FhEnum.QsortLists | libfh/fh.c:1174-1181 | sorting by the keys keeps what is listed and puts it in strict ascending or descending order |
| Fh.FhTable.EnumCreate | libfh/fh.c:1097-1184 | on a table at rest: the list has every binding exactly once, in the order asked for, or the table is empty and an error is given |
| Fh.FhTable.Clean | libfh/fh.c:358-411 | the table ends with no binding, h_elements 0 and every chain NULL, and the delete function, if any, has got the payload of every binding once; a delete function for payloads that are not pointers is refused |
| FhProtocol.EveryoneCanGoOn | libfh/fh.c:475-583 | no thread is ever kept from its next step: an insertion or deletion of its chain is always possible |
| FhProtocol.CountIsExact | libfh/fh.c:579-580 | in every interleaving h_elements, with the insertions not yet counted and without the deletions not yet counted, is the number of bindings; when none is pending it is exactly that |
| FhProtocol.EnumerationIsSound | libfh/fh.c:1097-1184 | whatever others insert and delete meanwhile, an enumeration lists at most as many elements as it allocated, no key twice, and each as it was bound when its chain was looked at |
| FhProtocol.StayingIsListed | libfh/fh.c:1097-1184 | a binding that stays from the reading of h_elements to the end is listed, unless the array is full |
| FhAnswers.AnswersAreRight | libfh/fh.c:475-583 | what an observer of the run sees goes with what is returned: fh_insert reports success exactly when its key was not bound when it had the chain, and then bound it and nothing else; fh_del success exactly when it was bound, and then removed it and nothing else; h_elements moves by the one that is reported; otherwise nothing changes; an enumeration's n is the h_elements it read, and it reports an empty table only if that was below 1 |
| FhAnswers.QuietEnumeration | libfh/fh.c:1097-1184 | an enumeration during which no binding changes, begun with no count pending, lists every binding exactly once, and reports an empty table only of one |
| LruList.SlotsAddUp | liblru/ll.c:28-80 | linked, free and dangling slots together are all the slots |
| LruList.Meaning | liblru/ll.c:116-381 | with prev and next mutually inverse and the ends anchored, a slot's status says which of the three it is, and no slot occurs twice |
| LruList.List.constructor | liblru/ll.c:28-80 | every slot free, in order |
| LruList.List.SlotNew | liblru/ll.c:116-140 | the first free slot is taken out and becomes dangling, or NULL when there is none |
| LruList.List.SlotFree | liblru/ll.c:144-156 | any slot is put in front of the free list; a dangling one joins it and the list is sound again |
| LruList.FreedExactly | liblru/ll.c:144-156 | there is a sound list afterwards if and only if the slot was dangling |
| LruList.List.SlotRemoveLast | liblru/ll.c:159-213 | the last linked slot becomes dangling, the others keep their order, or NULL when there is none |
| LruList.List.SlotAddToTop | liblru/ll.c:217-266 | a dangling slot is linked at the top and, if its links fit, is the new first of a sound list; any other slot is rejected |
| LruList.AddedExactly | liblru/ll.c:217-266 | there is a sound list afterwards if and only if its links fit a slot at the top, as ll_slot_new leaves them |
| LruList.List.SlotMoveToTop | liblru/ll.c:269-381 | a linked slot goes to the top, wherever it was and also next to the old top, and the others keep their order; the branches at 297 and 364 are not reached |
| LruList.MovedThreaded | liblru/ll.c:314-361 | the pointers after the move are again those of a doubly linked list, of the reordered slots |
| LruList.FrontedKeeps | liblru/ll.c:269-381 | moving to the front keeps exactly the same slots, each once |
| LruSpec.CheckValid | liblru/lru.c:145-170 | a check keeps keys distinct and the number of entries |
| LruSpec.AddValid | liblru/lru.c:75-142 | an add keeps keys distinct and never exceeds dim |
| LruSpec.AddOfPresentKey | liblru/lru.c:85-129 | when an add of a present key leaves the cache as it was, and when it reports a duplicate: exact conditions |
| LruSpec.RequestsTakeHistory | liblru/lru.c:30-34 | a cache that is asked and then filled for each request holds the dim most recent of all keys requested, in order |
| LruSpec.SmallerIsPrefix | liblru/lru.c:30-34 | a smaller cache holds a prefix of what a larger one holds after the same requests |
| LruSpec.HistorySorted | liblru/lru.c:30-34 | that order is the order of last use |
| LruSpec.CachedAreMostRecent | liblru/lru.c:30-34 | every key in the cache was used after every key that is not: the least recently used goes first |
| LruLedger.RunExplained | liblru/lru.c:75-170 | over any run of lru_add and lru_check, from a ledger of calls and answers alone: each entry holds what the latest successful lru_add of its key was given, and entries are in the order of their last success |
| LruLedger.CheckAnswers | liblru/lru.c:145-170 | after any run lru_check answers LRU_OK if and only if the key is in the cache, with the payload of the latest lru_add of it that answered LRU_OK, and otherwise LRU_ELEMENT_NOT_FOUND and no payload |
| LruLedger.AddAnswers | liblru/lru.c:109-141 | after any run lru_add of a key that is not in the cache answers LRU_OK, and whenever it does a lookup right after it yields the payload |
| LruLedger.AddEvicts | liblru/lru.c:85-107 | lru_add on a full cache takes out the entry whose key succeeded least recently and keeps all others |
| LruLedger.RequestHits | liblru/lru.c:30-34 | in the documented use a lookup of a key that is there yields what was loaded for it |
| Lru.TableFinds | liblru/lru.c:153-165 | the table has a key exactly when the cache has it, and leads to the slot at its place |
| Lru.EvictAgrees | liblru/lru.c:87-95 | the last slot's key is in the table, so the fh_del of an eviction cannot fail; without both, list and table agree again |
| Lru.MoveAgrees | liblru/lru.c:165 | moving a slot to the top moves its entry to the front, and list and table still agree |
| Lru.LruCreate | liblru/lru.c:36-70 | a new and empty cache, or NULL for a dim that is not positive |
| Lru.LruCache.CheckKey | liblru/lru.c:145-170 | list, table and blocks do what the abstract check does: a hit moves to the front and yields the payload it has with the key, a miss changes nothing; over whole runs this is LruLedger.CheckAnswers |
| Lru.LruCache.EvictAndTake | liblru/lru.c:85-107 | with no slot free, exactly the last entry goes and its slot is the one then taken |
| Lru.LruCache.FillAndPublish | liblru/lru.c:109-141 | the slot's block is filled and published under the key, or the slot is given back when the key is there |
| Lru.LruCache.AddKey | liblru/lru.c:75-142 | the abstract add; it evicts exactly once when the cache is full and not otherwise, and never gives up |
| Lru.LruCache.Clear | liblru/lru.c:173-199 | the cache is empty and LRU_OK is returned |
| LruProtocol.StepKeepsInv | liblru/lru.c:75-199 | every step of every thread keeps the ownership invariant |
| LruProtocol.ReachableInv | liblru/lru.c:75-199 | so it holds in every interleaving of any number of threads |
| LruProtocol.SlotsAreOwned | liblru/ll.c:116-381 | a slot is never both linked and free; it is in one of the lists exactly when no thread has it in hand, and no two threads have it in hand |
| LruProtocol.TableAgrees | liblru/lru.c:109-139 | a table entry leads to a slot that is not free and carries the key; a linked slot has its entry |
| LruProtocol.StepsMeetNoSurprise | liblru/lru.c:94-101 | under any interleaving the fh_del of an eviction or a clear finds its entry, ll_slot_add_to_top gets a dangling slot with clear links and does not reject it, ll_slot_move_to_top never meets a free slot, and a hit's payload was given for that key; what the calls return is LruAnswers.AnswersAreRight |
| LruProtocol.NoMemoryMeansNothingLinked | liblru/lru.c:87-92 | when lru_add gives up nothing is linked, and each slot is free or in another thread's hand |
| LruRuns.NeverGivesUp | liblru/lru.c:85-93 | with at most dim calls of lru_add under way at a time and none of lru_clear, lru_add never gives up |
| LruRuns.CrowdGivesUp | liblru/lru.c:87-92 | for every dim, dim + 1 calls of lru_add at a time and no other call: a run in which one gives up |
| LruRuns.GivesUpWithAllFree | liblru/lru.c:87-92 | for every dim, one call of lru_add and one of lru_clear at a time: a run in which lru_add gives up with all slots free |
| LruRuns.GivesUpExactly | liblru/lru.c:87-92 | so it may give up if and only if more than dim calls of lru_add, or one and a call of lru_clear, may be under way at once |
| LruRuns.SomeoneCanStep | liblru/lru.c:75-199 | no deadlock: in every reachable state with a call under way some thread can go on |
| LruRuns.CallsEnd | liblru/lru.c:85-107 | no livelock: without new calls at most 4 dim and 10 steps a thread follow, however calls take each other's slots, and as long as a call is left some thread can go on |
| LruRuns.AloneGetsASlot | liblru/lru.c:85-107 | a thread that runs alone is never kept waiting and gets a slot after at most one eviction, for dim above 0 |
| LruAnswers.AnswersAreRight | liblru/lru.c:75-170 | in every interleaving: a miss only if the key was not in the table when lru_check looked; a hit only if it was, with the value of the key's block then and its slot, if linked, brought to the front; success of lru_add only if the key was absent when inserted, its slot holds key and value, is bound to the key and is linked first; a duplicate only if the key was there, and the slot went back and nothing else changed; a call that does not end goes on |
| LruAnswers.AloneHits | liblru/lru.c:145-170 | a thread alone in lru_check of a key that a linked slot carries gets a hit with that slot's payload after four steps nothing keeps it from, the slot first and nothing else changed |
| LruAnswers.AloneMisses | liblru/lru.c:153-159 | and a miss at once when no linked slot carries the key |
| LruAnswers.AloneAdds | liblru/lru.c:109-141 | a thread alone with a slot in hand stores the entry and links it first, or gives the slot back when the key is there |
| LruOrder.ListInOrder | liblru/ll.c:269-381 | in every interleaving the list is in the order in which its slots last came to the front, by being linked or moved |
| LruOrder.OldestGoes | liblru/lru.c:85-94 | so what lru_add evicts under threads is the slot that came to the front least recently |
| Channel.ChannelHandle.constructor | libchannel/ch.c:41-73 | a new channel is empty, unlimited and blocking |
| Channel.ChannelHandle.Attach | libchannel/ch.c:157-181 | the element is linked behind the tail or in front of the head; the queue gains its block there |
| Channel.ChannelHandle.PutPass | libchannel/ch.c:124-191 | a put, from taking the mutex to leaving it or waiting again, does what the queue model says; count stays the length, head and tail NULL exactly when empty |
| Channel.ChannelHandle.GetPass | libchannel/ch.c:213-316 | so does a get: the front block, or the end marker, is taken out and returned, as ChannelProtocol.Delivery needs it |
| ChannelProtocol.ApplyKeeps | libchannel/ch.c:124-316 | each pass, wake-up or spurious wake-up keeps the invariant, whoever comes in between |
| ChannelProtocol.ReachableInv | libchannel/ch.c:124-316 | so it holds in every interleaving of any number of threads |
| ChannelProtocol.NoLostWakeUp | libchannel/ch.c:144-187 | whenever a getter sleeps the blocks are at most as many as the getters already woken, and whenever a putter sleeps the room is at most as much as the putters already woken |
| ChannelProtocol.Delivery | libchannel/ch.c:124-316 | what the calls of ch_get returned and what is still queued are exactly the blocks placed, each as often, so none is lost or delivered twice; without ch_put_head they come out in order; a limit is never exceeded |
| ChannelProtocol.GetAnswers | libchannel/ch.c:213-316 | a get has no data, or sleeps, exactly when every block placed has been returned; otherwise it returns one that has not, and the end of transmission exactly for its marker |
| ChannelProtocol.PutAnswers | libchannel/ch.c:124-204 | a put finds the channel full, or sleeps, exactly when max_size blocks have been placed and not returned; otherwise it returns how many there are with its own; a block placed with ch_put_head is the next one returned, and the rest follow as before |
| ChannelProtocol.RestIsJustified | libchannel/ch.c:222-235 | once no waiting thread can return any more, none is woken, sleeping getters mean an empty channel and sleeping putters a full one, never both |
| ChannelProtocol.ReturnsRunOut | libchannel/ch.c:147-153 | each return from a wait leaves fewer threads waiting, or as many with fewer woken ones: without new calls, signals do not go round for ever |
| ThreadPool.ApplyKeeps | libthp/thp.c:53-215 | every step keeps the pool's invariant, and none of them reports another wait |
| ThreadPool.ReachableInv | libthp/thp.c:53-215 | so it holds in every interleaving of any number of callers and workers |
| PoolRuns.Conservation | libthp/thp.c:136-179 | to_be_waited, corrected for an adder between put and increment and a waiter between get and decrement, is the jobs queued, running and waiting to be collected; submitted is that plus the freed ones |
| PoolRuns.EachJobOnce | libthp/thp.c:59-67 | each job is in exactly one place, has run at most once and is freed at most once, after it has run |
| PoolRuns.WaitTakesOutstanding | libthp/thp.c:157-171 | a wait that takes the mutex is due exactly the jobs outstanding then |
| PoolRuns.WaitReturns | libthp/thp.c:152-184 | it returns exactly that number, never THP_TOO_MANY_WAIT, and then every job put so far has run once and is freed |
| PoolRuns.WaitComesNearer | libthp/thp.c:172-180 | while a wait is under way every step of a worker or of the waiter brings down a bound, and no other call can put it off |
| PoolRuns.OneMarkerEach | libthp/thp.c:189-200 | each worker consumes exactly one end marker |
| PoolRuns.JobsRunBeforeTheLastJoin | libthp/thp.c:194-200 | every job has run when the last join returns |
| PoolRuns.AllHaveRun | libthp/thp.c:202-203 | after the joins the wait queue is as long as to_be_waited says, so the final wait finds all it needs |
| PoolThreads.RunsArePoolRuns | libthp/thp.c:53-72 | with workers and waiters that sleep, are woken by puts or wake for no reason, every run is one of the pool with its gets as single steps, so all of the above holds of it |
| PoolThreads.PoolRunsAreRuns | libthp/thp.c:53-72 | and every run of the pool is one of these |
| PoolThreads.NoLostWakeUp | libchannel/ch.c:215-235 | while a worker sleeps each queued item has a woken worker coming for it, and while the waiter sleeps the wait queue is empty |
| PoolThreads.SleepHidesNothing | libthp/thp.c:59-67 | whenever the pool can go on, so can its threads as they are |
| PoolThreads.AddReturnsItsCount | libthp/thp.c:144-148 | thp_add, which reads the count it returns without the mutex, returns at least the number of its own job, which is no other's |
| PoolAnswers.AddReturnsCounted | libthp/thp.c:144-148 | by an observer's count: it returns the number of jobs counted so far, which is its own number plus those counted since, so exactly its own if and only if no other was |
| PoolAnswers.JobsBeginInOrder | libthp/thp.c:53-67 | jobs are begun in the order in which they were put, whichever workers take them |
| PoolThreads.WaitGoesOn | libthp/thp.c:172-180 | in a pool with threads a wait that finds nothing, asleep or not, is not stuck: some worker can step |
| PoolThreads.RestsExactly | libthp/thp.c:187-203 | thp_destroy under way comes to rest before its end if and only if the pool has no threads, something is to be waited for and its own thread sleeps in the final wait |
| PoolThreads.ComesNearer | libthp/thp.c:187-203 | once thp_destroy has begun every step of anyone, and every going to sleep, brings down a bound; a wake-up for no reason raises it by one |
| PoolThreads.DestroyIsBounded | libthp/thp.c:187-203 | so only that many steps can follow, and two for each such wake-up |
| PoolThreads.DestroyOutcome | libthp/thp.c:187-203 | however the threads are scheduled after the call, at rest thp_destroy has completed if and only if the pool has a thread or nothing was to be waited for at the call; and once it has, nothing more can happen |
| PoolThreads.EmptyPoolHangs | libthp/thp.c:187-203 | a run in which it hangs: one job added to a pool without threads, and its thread asleep for ever |
| PoolThreads.DestroyCompletes | libthp/thp.c:187-203 | with a thread, a run that has come to rest has completed thp_destroy with every job run and freed once |
| Mum.MumByHalves | libfh/wyhash.h:74-76 | the product by 32-bit halves, with wrap-around and carries as in the code, is the exact 128-bit product for all 64-bit operands |
| Mum.HalvesAreUnique | libfh/wyhash.h:58-64 | its words are those the 128-bit type gives |
| Mum.Wymix | libfh/wyhash.h:86-89 | the exclusive or of the two words |
| Mum.Wy2u0k | libfh/wyhash.h:225-228 | the high word of the product, below k for k above 0: the number whose intervals the next rows describe |
| Mum.PreimageIsInterval | libfh/wyhash.h:225-228 | wy2u0k(r, k) is below k, and the r sent to v are exactly an interval; the intervals run from 0 to 2^64 |
| Mum.IntervalSize | libfh/wyhash.h:225-228 | each has 2^64 / k elements, rounded down or up |
| Mum.LargerCount | libfh/wyhash.h:225-228 | exactly 2^64 mod k results have the larger interval |
| Wyhash.Key.Read4 | libfh/wyhash.h:109-112 | four bytes inside the key, lowest first |
| Wyhash.Key.Read8 | libfh/wyhash.h:105-108 | eight bytes inside the key, lowest first |
| Wyhash.Key.Read3 | libfh/wyhash.h:143-146 | the or of the three shifted bytes is their number, and all of a key of one to three bytes is read |
| Wyhash.ReadShort | libfh/wyhash.h:153-156 | the two words of a key of 4 to 16 bytes, reading only inside it and all of it |
| Wyhash.ShortWordsInjective | libfh/wyhash.h:151-161 | keys of the same length up to 16 give different words if they differ at all |
| Wyhash.Loop48 | libfh/wyhash.h:165-175 | the loop over blocks of 48 bytes reads all of its part and nothing else |
| Wyhash.Loop16 | libfh/wyhash.h:176 | so does the loop over blocks of 16; that each byte read counts is WyhashCounts.EveryByteCounts |
| Wyhash.ReadLong | libfh/wyhash.h:163-178 | the last two words are the last 16 bytes of the key whatever the loops left over, and no byte stays unread |
| Wyhash.WyhashOf | libfh/wyhash.h:148-181 | for every length the bytes read are exactly the key's, each at least once, and the result is the function of the key stated by slices, on which each byte has influence by WyhashCounts.EveryByteCounts |
| WyhashCounts.EveryByteCounts | libfh/wyhash.h:148-181 | for every length, every position in it and every seed there are a secret and two keys that differ at that position only and have different hashes |
| WyhashCounts.SecretWordsCount | libfh/wyhash.h:165-181 | for every seed, changing the second word of the secret alone changes the hash of some key of each length above 0, and changing the third or the fourth that of some key of each length above 48 |
| WyhashCounts.LongSeedSingle | libfh/wyhash.h:165-176 | followed through both loops: a single byte in a right word, or in any word when the state is 1, is joined into the state by its weight in its word |
| Popcount.PairsTotal | libfh/wyhash.h:257-261 | adding neighbouring fields keeps their sum |
| Popcount.MaskNibbles | libfh/wyhash.h:260 | the mask selects every other field of any field values that fit |
| Popcount.LastStep | libfh/wyhash.h:261 | the top byte of the product with 0x0101010101010101 is the sum of the bytes |
| Popcount.ManualPopcount | libfh/wyhash.h:256-261 | the bit-parallel count is the number of set bits, for all 64-bit values |
| MakeSecret.PickHasFourBits | libfh/wyhash.h:234 | every byte of the table has four bits set |
| MakeSecret.DrawnHasFourEach | libfh/wyhash.h:239 | so a word made of n of them has 4 n |
| MakeSecret.SearchFindsSecret | libfh/wyhash.h:235-269 | the words found are odd, have 32 bits set and differ pairwise in 32 bits |
| MakeSecret.SearchIsStable | libfh/wyhash.h:237-268 | the number of attempts allowed has no influence on what is found |
| MakeSecret.DrawWord | libfh/wyhash.h:239 | the loop of shifts and ors over wyrand assembles that word and moves the seed on eight times, to one that WyrandPeriod tells from all before it |
| MakeSecret.FitsEarlier | libfh/wyhash.h:240-267 | the checks accept a word exactly when it is odd and 32 bits from each earlier one |
| MakeSecret.MakeSecret | libfh/wyhash.h:232-270 | when it returns, the array holds a secret: the one the search defines, whose words WyrandPeriod.SearchTakesFirstFit describes |
| WyrandPeriod.FullPeriod | libfh/wyhash.h:193-196 | the generator has full period: it is back at its seed after n draws if and only if n is a multiple of 2^64 |
| WyrandPeriod.SeedsRepeatExactly | libfh/wyhash.h:193-196 | so two draws start from the same seed exactly when they are a multiple of 2^64 apart |
| WyrandPeriod.EverySeedComesUp | libfh/wyhash.h:193-196 | every word is the seed of one of the first 2^64 draws |
| WyrandPeriod.TwinSeedsDrawAlike | libfh/wyhash.h:195 | two seeds whose successors differ by the twist draw the same number, so every number drawn is drawn at least twice |
| WyrandPeriod.DrawsDiffer | libfh/wyhash.h:195 | two draws that differ, for the successors 1 and the twist |
| WyrandPeriod.SearchTakesFirstFit | libfh/wyhash.h:235-268 | each word of the secret is the first drawn after the one before it that is odd and 32 bits from all before |
| WyrandPeriod.AttemptsDrawAfresh | libfh/wyhash.h:239 | no draw of one attempt starts from the seed of a draw of another, for attempts less than 2^61 apart |
| Vector.StepIsPaid | libvector/vector.c:78-136 | each call keeps total within capacity and capacity at least two, and pays for the elements a reallocation carries |
| Vector.AmortisedBound | libvector/vector.c:64-136 | over any run the elements carried are at most twice the adds plus the deletes plus half the first capacity |
| Vector.RefinesList | libvector/vector.c:78-136 | over any run the elements are those of a plain list, whatever was reallocated |
| Vector.VectorHandle.constructor | libvector/vector.c:25-54 | empty, with room for dim or 20, whichever is more |
| Vector.VectorHandle.Resize | libvector/vector.c:64-76 | the elements are kept and counted as carried |
| Vector.VectorHandle.Add | libvector/vector.c:78-87 | the item is appended, after doubling when full |
| Vector.VectorHandle.Set | libvector/vector.c:89-97 | the element is replaced; an index out of range changes nothing |
| Vector.VectorHandle.Get | libvector/vector.c:99-110 | the element, or NULL for an index out of range |
| Vector.VectorHandle.Delete | libvector/vector.c:112-136 | exactly the element at the index goes, the later ones move down, and the array is halved at a quarter |

## Left out

- Allocation failure: every malloc, calloc, strdup and realloc succeeds.
- Ownership of C strings: keys are values. In particular the copy of a child over its parent followed by freeing the shared key (libavl/avl.c:218-222) is claimed for the logical tree only.
- Handle and magic-number checks, NULL keys, print functions, destroy functions that only free memory, libtiming, libnlru, and the vendored googletest and googlebenchmark trees.
- The payload copying modes of libfh and libchannel (datalen), fh_search, fh_insertlock, fh_dellocked with a bucket number that is not the key's, and read-write locks. Of h_datalen only what fh_clean asks of it is modelled.
- ch_peek: its branch for the end marker lowers count without unlinking the element (libchannel/ch.c:334-340), so count is not the length after it.
- ch_setattr, ch_clean and ch_destroy while threads wait: a channel's limit and mode are fixed before the run.
- The statistical quality of wyhash, its floating-point helpers, the 32-bit variant of _wymum that computes another function, and byte order other than little-endian.
- Integer width is modelled where the code depends on it (words of 64 bits, masks, carries, mini-hashes); counters, capacities and heights are unbounded.
- Hash collisions are counted as the code does, but nothing is claimed of h_collision.
- Fh.HashSize: demands a size for which the loop ends; Fh.HashSizeEnds says which those are.
- Fh.FhTable.constructor: does not cover a dim with dim + dim/2 above 2^30, whose size does not fit an int, nor a negative dim.
- Fh.FhTable.EnumCreate: qsort is a function of the model that inserts each element at its place; as the keys differ, any sorting gives that list.
- Fh.FhTable.Insert: counts the element in the step that inserts it; that h_elements is counted later is in FhProtocol.
- FhBuckets.FhBucket: the two arrays inside a bucket, mini-hashes and slots, are one sequence field of the bucket.
- Lru.LruCreate: does not cover a dim with dim + dim/2 above 2^30, as the hash table does not.
- LruList.List.constructor: slots are indices into the one array allocated, not pointers.
- LruProtocol.ReachableInv: takes each fh_* call as one step on a map, by the lock of the key's shard; that the call does this to the chains is what Fh proves.
- ThreadPool.ReachableInv: takes the put and get of the pool's two unlimited channels as single steps on a queue, as Channel proves them; the sleeping and waking between them is in PoolThreads. The pool is a state machine, not a class.
- FhProtocol.CountIsExact: takes what a call does to its chain as one step to any chain that stands for the new map; that the call gets there is what Fh proves.
- PoolThreads.DestroyIsBounded: takes a job as one step that ends; what it does is not modelled, so jobs that add jobs during thp_destroy are excluded.
- WyhashCounts.SecretWordsCount: says nothing of the first word of the secret.
- LruAnswers.AnswersAreRight: lru_add's LRU_NO_MEMORY for a failing malloc or fh_insert is not in the model, as allocation does not fail.
- MakeSecret.MakeSecret: does not claim that the search ends; it is given a number of attempts and says whether they sufficed.
