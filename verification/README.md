# MICA, Maglev and xxHash: a verified model

This project models, in Dafny 4.11, the data structures and protocols behind the benchmark applications of this
repository: the key-value store MICA with its memory pools, hash table, request path and client, the Maglev load
balancer and the xxHash streams.  Code that changes things step by step is a class or a method with loops here as well;
what the methods promise is stated over functions and predicates on values, and properties of whole runs are lemmas.

| file | models |
|---|---|
| Words.dfy | machine words, remainders, powers of two |
| Counting.dfy | pigeonhole arguments |
| SegregatedFit.dfy | the boundary-tag allocator with segregated free lists |
| TableItems.dfy | keys, values, tags, slot words and length words of the table |
| LosslessTable.dfy | the hash table over the allocator: chains of extra buckets, refinement of a map |
| CircularLog.dfy | the circular log |
| Sweeping.dfy | which slots are swept when, and whether that is in time |
| LossyTable.dfy | the hash table over the log: 48-bit offsets, sweeping, moving to the head |
| Seqlock.dfy | the version lock of a bucket as interleaved steps, with `get` as the reader |
| GetAnswers.dfy | what `get` answers, in terms of the words of a bucket's chain |
| TornRead.dfy | runs in which `get` keeps a torn read, and the number of writers that decides it |
| Rebalance.dfy | the greedy load rebalancer and its approximation bound |
| HandOverQueue.dfy | the queue between cores as interleaved steps |
| Ownership.dfy | ownership of partitions and its hand-over as interleaved steps |
| Batch.dfy | request batches in packets: builder and reader |
| Pipeline.dfy | the software-pipelined request loop and the ring of parsed requests |
| Descriptors.dfy | the client's request descriptors, responses and timeouts |
| HugePages.dfy | bookkeeping of shared huge pages |
| XxHash.dfy | one-shot and streaming xxHash, 32 and 64 bits |
| HashBytes.dfy | every step of xxHash can be undone, so changed bytes change the hash |
| KnownHashes.dfy | known hashes of xxHash |
| Maglev.dfy | preference rows, table filling and the cache of Maglev |

Memory is modelled in 8-byte words where the source only ever accesses aligned words, and in bytes in packets and
hashes.  Unsigned wrap-around is written out wherever it can happen.  Where the code does not do what one would expect,
the code is kept and the exact condition is proved; runs that lead to the failure are named with it:

- the validity test of the log is right for some distances only (`CircularLog.ValidityRight`), which is enough for all
  slots in all runs if and only if there is more than one bucket (`Sweeping.BucketsDecide`, `LossyTable.OneBucket`);
- an in-place overwrite that grows an item by exactly eight bytes spills (`LossyTable.Table.Set`, `LossyTable.SpillsWord`);
- the replacement choice named after the oldest item takes the newest if all are recent, and may take a stale one for it
  otherwise (`LossyTable.Table.GetEmptyOrOldest`, `LossyTable.DistanceIsAge`, `LossyTable.StaleSeemsNearer`);
- a read is kept after any multiple of 2^31 writers (`Seqlock.KeptExactly`); all kept reads that n writers pass are atomic
  if and only if n is not a positive multiple (`TornRead.SectionsDecide`, `TornRead.TornGet`);
- a reset works on the tables of other cores (`Ownership.TablesTouchedByOne`, `Ownership.ResetMeetsWrite`);
- a response passes the epoch test after any multiple of 2^16 releases (`Descriptors.WhoseResponse`,
  `Descriptors.ThreadState.HandleResponse`, `Descriptors.LateResponse`);
- ranges whose end wraps around lead behind an entry (`HugePages.RangeChecked`, `HugePages.WrappedRange`), and null
  addresses make reference counts wrong (`HugePages.Memory.Map`, `HugePages.Memory.Unmap`, `HugePages.Memory.MapNull`,
  `HugePages.UnmapTwice`);
- the space test of a batch does not see the requests already there (`Batch.SpaceTestRight`, `Batch.TooLong`);
- Maglev rows wrap for two kinds of pairs (`Maglev.PermutesExactly`) and then miss one slot; the table fills up unless
  that is the last free one and the last turn is such a row's (`Maglev.LoadBalancer.Setup`, `Maglev.BothMissOne`).

Preconditions that the source leaves to its callers: item sizes are at least one, key and value lengths are multiples of
eight bytes in the table (31 and 131071 words at most), get, delete, increment and moving to the head need a lossy table
without slots that are 2^48 bytes old, which more than one bucket guarantees, there are 1 to 65535 backends, and a burst
of packets has fewer than 2^16 requests, where the requests of one packet and three stage gaps together are at most 128.

## Model

| member | source | states |
|---|---|---|
| SegregatedFit.TagRoundTrip | mica2/src/mica/pool/segregated_fit_impl.h:421-435 | A tag word gives back the size and the status it was made from. |
| SegregatedFit.ClassRoundUp | mica2/src/mica/pool/segregated_fit_impl.h:122-134 | Class from which a search for a request starts; never past the last class. |
| SegregatedFit.ClassRoundDown | mica2/src/mica/pool/segregated_fit_impl.h:136-147 | Class in which a free chunk is kept; never past the last class. |
| SegregatedFit.ClassesSeparateSizes | mica2/src/mica/pool/segregated_fit_impl.h:122-147 | A chunk that is large enough is in the rounded-up class of the request or above, and every chunk found there below the last class is large enough. |
| SegregatedFit.ClassesAreRanges | mica2/src/mica/pool/segregated_fit_impl.h:122-147 | Class c keeps the sizes from 32 + 8c to before the next class, the last one all from there on; the rounded-up class is the first whose sizes are all large enough, or the last. |
| SegregatedFit.WordInOneChunk | mica2/src/mica/pool/segregated_fit_impl.h:254-260 | In a tiled arena every word belongs to exactly one chunk. |
| SegregatedFit.FreeRunInOneChunk | mica2/src/mica/pool/segregated_fit_impl.h:295-345 | Because free neighbours are merged, any run of free words lies inside one free chunk. |
| SegregatedFit.FreeRunIffFreeChunk | mica2/src/mica/pool/segregated_fit_impl.h:198-252 | A free run of a length exists exactly when one free chunk is that long. |
| SegregatedFit.TilingDeterminedByLive | mica2/src/mica/pool/segregated_fit_impl.h:295-345 | The live chunks alone determine a coalesced tiling: the free chunks are what lies between them. |
| SegregatedFit.ReleaseUndoesAllocate | mica2/src/mica/pool/segregated_fit_impl.h:347-403 | A release right after an allocation restores the same tiling, whatever was split and merged. |
| SegregatedFit.Pool.constructor | mica2/src/mica/pool/segregated_fit_impl.h:30-88 | The arena has the configured size, in whole huge pages and rounded up to a power of two; a new pool is one free chunk and satisfies the whole invariant. |
| SegregatedFit.Pool.Reset | mica2/src/mica/pool/segregated_fit_impl.h:254-260 | After a reset there is no item and the invariant holds. |
| SegregatedFit.Pool.InsertFreeChunk | mica2/src/mica/pool/segregated_fit_impl.h:149-171 | Pushes a chunk at the head of the list of its class and changes no other list, writing both tags and both links; all tags, links, lists and live words of other chunks stay right. |
| SegregatedFit.Pool.RemoveFromFreeList | mica2/src/mica/pool/segregated_fit_impl.h:173-196 | Takes a chunk out of the middle, front or end of its list; the other links stay a doubly linked list. |
| SegregatedFit.Pool.RemoveFromHead | mica2/src/mica/pool/segregated_fit_impl.h:198-252 | Takes the first large enough chunk of the first class that has any, from the rounded-up class of the size on, off its list; fails exactly when no free chunk in the arena is large enough. |
| SegregatedFit.Pool.CoalesceLeft | mica2/src/mica/pool/segregated_fit_impl.h:295-319 | Merges with the left neighbour, whose start becomes that of the chunk, exactly when that neighbour is free, and changes no chunk otherwise; afterwards no free chunk ends where this one starts. |
| SegregatedFit.Pool.CoalesceRight | mica2/src/mica/pool/segregated_fit_impl.h:321-345 | Merges with the right neighbour, whose size is added, exactly when that neighbour is free, and changes no chunk otherwise; afterwards no free chunk starts where this one ends. |
| SegregatedFit.Pool.Allocate | mica2/src/mica/pool/segregated_fit_impl.h:347-387 | Reports insufficient space exactly when no free run of roundup8(item_size) + 24 bytes exists, in words of eight bytes, and then changes nothing; otherwise the new item's chunk comes out of a free chunk and is less than 32 bytes larger than needed; all other live chunks and their words are unchanged. |
| SegregatedFit.Pool.Release | mica2/src/mica/pool/segregated_fit_impl.h:389-403 | Exactly the released item disappears, every other live word is unchanged, and the arena is coalesced again. |
| SegregatedFit.AllocateThenRelease | mica2/src/mica/pool/segregated_fit_impl.h:347-403 | An allocation followed by the release of what it gave leaves the arena chunk for chunk as it was, with the same items and no live word changed; the allocation in between succeeds exactly when there is a free run. |
| SegregatedFit.Pool.GetItemSize | mica2/src/mica/pool/segregated_fit_impl.h:281-293 | Returns the size the item was allocated with. |
| SegregatedFit.Pool.ReadWord | mica2/src/mica/pool/segregated_fit_impl.h:271-279 | Reads the words of the item. |
| SegregatedFit.Pool.WriteWord | mica2/src/mica/pool/segregated_fit_impl.h:271-279 | A write within an item changes that word of that item and nothing else: no tag, no link, no other item. |
| TableItems.CalcTag | mica2/src/mica/table/ltable_impl/item.h:23-30 | Tags are never zero, so that an empty slot has no key's tag. |
| TableItems.BucketsTakeTurns | mica2/src/mica/table/ltable_impl/bucket.h:24-27 | Hashes below 2^16 fall in bucket 0, and adding 2^16 to a hash moves to the next bucket, going round: the bucket is the hash without its low 16 bits, modulo their number. |
| TableItems.VecRoundTrip | mica2/src/mica/table/ltable_impl/bucket.h:7-21 | Tag and 48-bit offset are recovered from a slot word, and the word is not zero. |
| TableItems.LengthsRoundTrip | mica2/src/mica/table/ltable_impl/item.h:7-21 | Key and value lengths are recovered from the length word; the other half of the 64-bit word stays. |
| LosslessTable.Table.constructor | mica2/src/mica/table/ltable_impl/init.h:121-156 | The new table stands for the empty map; all extra buckets are in the free list. |
| LosslessTable.Table.FindItem | mica2/src/mica/table/ltable_impl/bucket.h:227-277 | Finds a slot exactly when the key is in the map, and it is the slot of that key's item, wherever in the chain. |
| LosslessTable.Table.AllocExtraBucket | mica2/src/mica/table/ltable_impl/bucket.h:56-79 | Moves the top extra bucket of the free list to the end of the chain, or fails exactly when the free list is empty; every extra bucket stays in exactly one list. |
| LosslessTable.Table.FreeExtraBucket | mica2/src/mica/table/ltable_impl/bucket.h:81-106 | Moves the last, empty extra bucket of a chain to the free list; no item moves. |
| LosslessTable.Table.FillHole | mica2/src/mica/table/ltable_impl/bucket.h:108-158 | Terminates; moves one item of the last non-empty bucket behind the hole into it and touches no other slot; exactly the buckets that are empty then, and those behind, leave the chain; a hole stays only in a chain's last bucket. |
| LosslessTable.Table.GetEmpty | mica2/src/mica/table/ltable_impl/bucket.h:160-185 | Finds a free slot in the chain, extending it if needed, or fails exactly when the chain is full and no extra bucket is free. |
| LosslessTable.Table.Set | mica2/src/mica/table/ltable_impl/set.h:7-153 | Result and new map, exactly: exists, success, or insufficient space precisely when there is no slot or no free run of bytes; only a success changes the map, and only at the key.  A new key for which there is memory is refused only if the chain of bucket (hash / 2^16) modulo their number is full, and the map then holds seven keys of that bucket for every row of the chain. |
| LosslessTable.Table.StoreItem | mica2/src/mica/table/ltable_impl/set.h:89-150 | Storing or relocating an item adds or replaces exactly that key, and returns the old item's memory. |
| LosslessTable.Table.Get | mica2/src/mica/table/ltable_impl/get.h:7-109 | Delivers the length-min prefix of the stored value and reports a partial value exactly when it was cut; a missing key leaves the buffer alone. |
| LosslessTable.Table.Test | mica2/src/mica/table/ltable_impl/test.h:7-36 | Success exactly when the key is in the map. |
| LosslessTable.Table.Del | mica2/src/mica/table/ltable_impl/del.h:7-55 | Success exactly when the key was in the map, which then lacks exactly that key; the item's slot is refilled from the end of the key's own chain. |
| LosslessTable.Table.Increment | mica2/src/mica/table/ltable_impl/increment.h:7-77 | Adds modulo 2^64 to an 8-byte value; missing keys and other lengths are refused without a change. |
| LosslessTable.Table.Reset | mica2/src/mica/table/ltable_impl/init.h:120-160 | The map is empty and all extra buckets are free. |
| LosslessTable.Table.Run | mica2/src/mica/table/ltable_impl/set.h:7-153 | Refinement over whole runs: every result of any sequence of requests is one that a key-to-value map gives, step by step, except that a set may report insufficient space with the map unchanged. |
| CircularLog.ValidityRight | mica2/src/mica/pool/circular_log_impl.h:96-104 | The masked validity test is right for an offset exactly if it is less than 2^48 bytes behind the tail or its distance modulo 2^48 is larger than the log. |
| CircularLog.MaskedCell | mica2/src/mica/pool/circular_log_impl.h:136-161 | Masking an offset to 48 bits does not change the words it names. |
| CircularLog.CellsApart | mica2/src/mica/pool/circular_log_impl.h:136-161 | Different positions within one arena length have different words. |
| CircularLog.Log.constructor | mica2/src/mica/pool/circular_log_impl.h:8-32 | The log has the configured size, at least 2 MB, in whole huge pages and rounded up to a power of two, which leaves half of the offset space for sweeping; an empty log satisfies the invariant. |
| CircularLog.Log.PopHead | mica2/src/mica/pool/circular_log_impl.h:199-209 | The header at the head is intact, and the head moves to the next block. |
| CircularLog.Log.PushTail | mica2/src/mica/pool/circular_log_impl.h:211-238 | Appends one block at the tail, popping blocks until it fits; returns the old tail masked; no header of a block still within the log is overwritten. |
| CircularLog.Log.Reset | mica2/src/mica/pool/circular_log_impl.h:163-166 | The log is empty. |
| Sweeping.ComputeShift | mica2/src/mica/table/ltable_impl/init.h:78-80 | For any number of buckets, one included, the loop ends with the shift for which the buckets together are swept once in 2^47 bytes. |
| Sweeping.Horizon | mica2/src/mica/table/ltable_impl/bucket.h:320-368 | An offset that survived every sweep of its bucket so far is less than 2^48 bytes old. |
| Sweeping.MaskedCounter | mica2/src/mica/table/ltable_impl/bucket.h:327-339 | The bucket counter computed from the masked tail is that of the true tail. |
| Sweeping.AppendPasses | mica2/src/mica/table/ltable_impl/bucket.h:320-339 | With more than one bucket an append passes fewer counters than there are buckets, so comparing bucket numbers misses no sweep. |
| Sweeping.SurvivesSweeps | mica2/src/mica/table/ltable_impl/bucket.h:320-368 | A slot that a cleanup leaves has survived every sweep of its bucket that the tail has passed. |
| Sweeping.RunExact | mica2/src/mica/table/ltable_impl/bucket.h:320-368 | With more than one bucket no slot is ever 2^48 bytes old and the test is exact, after any run. |
| Sweeping.BucketsDecide | mica2/src/mica/table/ltable_impl/bucket.h:320-368 | The validity test tells for every slot in every state of every run of appends, removals and cleanups whether its item is within the log, if and only if the table has more than one bucket. |
| Sweeping.OneBucketRun | mica2/src/mica/table/ltable_impl/bucket.h:336-339 | With one bucket, filling the log for as long as one likes with the first item in its slot is a run: nothing is ever swept. |
| LossyTable.Table.constructor | mica2/src/mica/table/ltable_impl/init.h:120-156 | The new table, of any number of buckets, answers nothing and satisfies the invariant. |
| LossyTable.Table.SlotsAreRecent | mica2/src/mica/table/ltable_impl/bucket.h:320-368 | In every valid state each non-empty slot is less than 2^48 bytes old, its validity test is exact, and a valid slot's bytes are the key and the last value set for it. |
| LossyTable.Table.SweepBucket | mica2/src/mica/table/ltable_impl/bucket.h:340-366 | Empties exactly the slots of the bucket that do not pass the validity test. |
| LossyTable.Table.Cleanup | mica2/src/mica/table/ltable_impl/bucket.h:320-368 | Empties exactly the slots that do not pass the test in the buckets from that of the old tail to before that of the new one, going round; with one bucket that is none. |
| LossyTable.Table.FindItem | mica2/src/mica/table/ltable_impl/bucket.h:227-277 | Finds the first slot that matches in tag, hash and key, or none. |
| LossyTable.Table.FindSameTag | mica2/src/mica/table/ltable_impl/bucket.h:290-311 | Finds a slot with the tag, or none. |
| LossyTable.Table.GetEmptyOrOldest | mica2/src/mica/table/ltable_impl/bucket.h:187-224 | Returns the first empty slot, or else the first one at the smallest distance from the tail modulo the log's size; as long as every item of the bucket is less than a log's length old that is the newest item, and not the oldest. |
| LossyTable.DistanceIsAge | mica2/src/mica/table/ltable_impl/bucket.h:210-212 | The masked distance of an item is its age exactly if that is less than the size of the log. |
| LossyTable.StaleSeemsNearer | mica2/src/mica/table/ltable_impl/bucket.h:210-217 | A stale item that has not been swept yet can be nearer, by that distance, than a live one. |
| LossyTable.Table.Set | mica2/src/mica/table/ltable_impl/set.h:7-153 | Exists or success as the matching slot and the flag say; a valid table stays valid if and only if the overwrite does not spill, that is unless the key's live item is exactly eight bytes too small, and no slot gets 2^48 bytes old, which only one bucket allows; without a spill the table answers the new value for the key and nothing new for any other key; at most one slot's item, of bucket (hash / 2^16) modulo their number and, unless it has the key's tag, only if all fifteen are taken, is lost besides those the log overruns, and the log grows by the item exactly when no live item of the key is large enough; also on a table of one bucket that is no longer valid, a key without a match is appended. |
| LossyTable.Table.Get | mica2/src/mica/table/ltable_impl/get.h:7-109 | Returns not-found only if the table had no answer, and otherwise the last value set for the key, never stale bytes; with mutation allowed, the stale slot is emptied, or an item farther from the tail than the threshold goes to the tail, and no answer is added, changed or, within the log, lost; a table of any number of buckets stays valid as long as no slot is 2^48 bytes old. |
| LossyTable.Table.Test | mica2/src/mica/table/ltable_impl/test.h:7-36 | Success exactly when some slot matches, stale or not; on a valid table a key with an answer is always found. |
| LossyTable.Table.Del | mica2/src/mica/table/ltable_impl/del.h:7-55 | Afterwards the key has no answer, and the answers for all other keys are unchanged. |
| LossyTable.Table.Increment | mica2/src/mica/table/ltable_impl/increment.h:7-77 | Not-found exactly when nothing matches, success exactly for a live 8-byte value, to which it adds modulo 2^64; every other case is an error that changes nothing. |
| LossyTable.Table.Reset | mica2/src/mica/table/ltable_impl/init.h:120-160 | No key has an answer, and the table, however old its slots were, is valid again. |
| LossyTable.Table.MoveToHead | mica2/src/mica/table/ltable_impl/move_to_head.h:7-81 | An item goes to the tail exactly when its true distance from it exceeds the threshold, unless making room has put it out of the log; no answer is added or changed, and none whose item is still within the log is lost; the table stays valid exactly as long as no slot is 2^48 bytes old, always with more than one bucket. |
| LossyTable.Table.Relocate | mica2/src/mica/table/ltable_impl/move_to_head.h:57-65 | A still valid item is copied word by word to the new block, and its slot points there. |
| LossyTable.Table.AppendItem | mica2/src/mica/table/ltable_impl/set.h:89-139 | Appending, pointing the slot there and sweeping make the new value the key's answer and lose no other live item; the table stays valid exactly as long as no slot is 2^48 bytes old, always with more than one bucket; for any number of buckets it is one step of a run. |
| LossyTable.Table.TryInPlace | mica2/src/mica/table/ltable_impl/set.h:75-105 | On a valid table, overwrites in place exactly when the item is live and its block, header included, is large enough; the table stays valid if and only if the new item does not spill; otherwise nothing changes. |
| LossyTable.MatchedLive | mica2/src/mica/table/ltable_impl/bucket.h:227-277 | A matching slot passes the validity test exactly when its item is live, and then it is the key's. |
| LossyTable.SweptIsYoung | mica2/src/mica/table/ltable_impl/bucket.h:320-368 | With more than one bucket the sweeps alone keep every slot less than 2^48 bytes old. |
| LossyTable.SpillHitsNextHeader | mica2/src/mica/table/ltable_impl/set.h:75-105 | Where a spilling value's last word lands: on the header of the next block, or where the next append will put one. |
| LossyTable.SpillsWord | mica2/src/mica/table/ltable_impl/set.h:75-105 | In a new table a key is set to n words and then to n + 1; any later append overwrites the last of these words with its header. |
| LossyTable.OneBucket | mica2/src/mica/table/ltable_impl/bucket.h:320-368 | A run of set on a table of one bucket after which a slot that is not empty is exactly 2^48 bytes old and passes the validity test, though its item is gone: the table is no longer valid. |
| Seqlock.VersionsMeet | mica2/src/mica/table/ltable_impl/lock.h:65-94 | Begin and end versions agree exactly when no writer is inside and the sections in between are a multiple of 2^31. |
| Seqlock.StepKeepsInv | mica2/src/mica/table/ltable_impl/lock.h:7-37 | Every step of every thread keeps the version, the holder and the snapshots of all readers consistent. |
| Seqlock.WritersExclude | mica2/src/mica/table/ltable_impl/lock.h:7-37 | In every reachable state at most one writer is inside a bucket. |
| Seqlock.UnlockFindsOdd | mica2/src/mica/table/ltable_impl/lock.h:26-37 | Whoever unlocks finds the version odd and unchanged since it was loaded. |
| Seqlock.KeptExactly | mica2/src/mica/table/ltable_impl/lock.h:65-94 | A read is kept exactly when nobody is inside and the number of sections since its begin is a multiple of 2^31. |
| Seqlock.OneWay | mica2/src/mica/table/ltable_impl/get.h:22-93 | A reader that runs alone has only one possible course. |
| Seqlock.ReadsMatchOneInstant | mica2/src/mica/table/ltable_impl/get.h:22-93 | In every interleaving in which the sections during the read are not a positive multiple of 2^31, what a reader keeps is what it would have seen running alone at one instant of its call with no writer inside. |
| Seqlock.GetIsClosed | mica2/src/mica/table/ltable_impl/bucket.h:227-277 | Run alone on a bucket as writers leave it, the search and copy of get read only words of that bucket's chain and items. |
| Seqlock.GetIsAtomic | mica2/src/mica/table/ltable_impl/get.h:22-93 | Under concurrent writers get answers as if it had run alone at one instant of its call, unless a positive multiple of 2^31 sections came and went during the read; what it then answers is the matter of LoneGetAnswers. |
| Seqlock.EditKeeps | mica2/src/mica/table/ltable_impl/bucket.h:56-158 | Each such edit leaves the bucket as a reader of it needs it. |
| Seqlock.GetAmongEdits | mica2/src/mica/table/ltable_impl/get.h:22-93 | If every writer section is a sequence of table edits (writing a slot and its item, moving an item, linking or unlinking an extra bucket), get is atomic on every bucket that was well kept at the start, with the same exception. |
| GetAnswers.LoneGetAnswers | mica2/src/mica/table/ltable_impl/get.h:22-93 | Run alone on a chain that ends, get answers not-found exactly if no slot of the chain holds the key or the length found is over the limit, and otherwise as much of the value of the first slot that does as was asked for, partial exactly if it was cut; said of the memory words alone. |
| GetAnswers.GetFinishes | mica2/src/mica/table/ltable_impl/bucket.h:227-277 | Run alone on a chain that ends, get finishes. |
| GetAnswers.EditEnds | mica2/src/mica/table/ltable_impl/bucket.h:56-158 | Every edit leaves a chain whose links lead through exactly the bucket's rows and end. |
| GetAnswers.GetAnswersAnInstant | mica2/src/mica/table/ltable_impl/get.h:22-93 | Among writers that only edit, a bucket's links lead through all its rows and end, and get answers what the words of one instant of its call say of this chain. |
| TornRead.TornGet | mica2/src/mica/table/ltable_impl/get.h:22-93 | For every positive multiple of 2^31 a run in which get returns another key's value: no memory at all shows what it has seen, and in no state of the run would it have given that answer alone, though every quiet state is well kept. |
| TornRead.SectionsDecide | mica2/src/mica/table/ltable_impl/lock.h:65-94 | Every kept read of get with n sections during it matches one instant, whatever the run, if and only if n is not a positive multiple of 2^31. |
| Rebalance.LongestFirst | mica2/src/mica/processor/partitions_impl/info.h:153-168 | 3m times the largest estimated load is at most (4m - 1) times the largest load of any assignment to m cores. |
| Rebalance.GreedyAverage | mica2/src/mica/processor/partitions_impl/info.h:153-168 | m times any estimated load is at most the total plus (m - 1) times the biggest bin. |
| Rebalance.BigJobFits | mica2/src/mica/processor/partitions_impl/info.h:153-168 | While bins are heavier than a third of what some assignment manages, greedy manages it too. |
| Rebalance.LoadConserved | mica2/src/mica/processor/partitions_impl/info.h:153-168 | The cores together carry all bins. |
| Rebalance.SortBins | mica2/src/mica/processor/partitions_impl/info.h:143-148 | A permutation of the bins in descending order, equal loads by partition. |
| Rebalance.FirstLeastLoaded | mica2/src/mica/processor/partitions_impl/info.h:157-165 | The first core with the least estimated load. |
| Rebalance.Pack | mica2/src/mica/processor/partitions_impl/info.h:153-168 | Every bin goes to the first of the least loaded cores at that point. |
| Rebalance.GreedyIsBalanced | mica2/src/mica/processor/partitions_impl/info.h:153-168 | The bound for the plan as a map from partitions to cores, against every other plan. |
| Rebalance.PlanConserves | mica2/src/mica/processor/partitions_impl/info.h:153-168 | Under any plan the loads of the cores add up to all requests. |
| Rebalance.CollectCores | mica2/src/mica/processor/partitions_impl/info.h:117-122 | The cores of a NUMA domain. |
| Rebalance.CollectBins | mica2/src/mica/processor/partitions_impl/info.h:124-141 | The partitions owned in the domain with the requests its cores got for them, whose loads are those of LoadsFollowRequests. |
| Rebalance.LoadsFollowRequests | mica2/src/mica/processor/partitions_impl/info.h:124-135 | k more requests that a core got for a partition add exactly k to the load of that partition if its owner and the core belong to the domain, and change no other load; a partition has a bin in its owner's domain and in no other. |
| Rebalance.NoRequestsNoLoad | mica2/src/mica/processor/partitions_impl/info.h:124-135 | Without requests all loads are 0. |
| Rebalance.PlanFollowsLoads | mica2/src/mica/processor/partitions_impl/info.h:153-168 | Load k more in one bin is load k more on the core that the plan gives it to, and on no other. |
| Rebalance.LoadsFit | mica2/src/mica/processor/partitions_impl/info.h:124-141 | Sums of 32-bit counts over 16-bit numbers of cores and partitions do not wrap. |
| Rebalance.RebalanceDomain | mica2/src/mica/processor/partitions_impl/info.h:124-168 | Gives the partitions of a domain with requests a balanced plan and queues exactly the changes of owner; a quiet domain is left alone. |
| Rebalance.RebalanceLoad | mica2/src/mica/processor/partitions_impl/info.h:111-172 | Every partition of a domain with requests gets exactly one core of its own domain, the plan is balanced in every domain, and the queued changes are exactly those of the plan that change an owner. |
| HandOverQueue.StepKeepsInv | mica2/src/mica/util/queue.h:31-85 | Every step of producers and consumer keeps the ring equal to what was sent and not yet got. |
| HandOverQueue.FirstInFirstOut | mica2/src/mica/util/queue.h:31-85 | Whatever the interleaving, items come out in the order of publication, none lost, none twice, and producers exclude each other. |
| HandOverQueue.RefusedExactlyWhenFull | mica2/src/mica/util/queue.h:31-85 | An item is refused exactly when fifteen are waiting at the check; nothing is found exactly when none is. |
| Ownership.StepKeepsOwners | mica2/src/mica/processor/partitions_impl/info.h:82-109 | Every step keeps: who executes a request that only the owner may execute, or is about to give a partition away, owns it. |
| Ownership.OnlyOwnerGives | mica2/src/mica/processor/partitions_impl/info.h:82-109 | An owner changes only by its own doing, and to the core that a queued change names. |
| Ownership.StepKeepsShape | mica2/src/mica/processor/partitions_impl/info.h:42-109 | The ranges that steps ask for always hold, so that they never keep a core from a step. |
| Ownership.ExclusiveExecution | mica2/src/mica/processor/partitions_impl/process.h:119-139 | In every interleaving no two cores execute changes or resets for one partition at a time while concurrent writes are off, nor reads while concurrent reads are off, nor one of each while both are; the partition belongs to the core that does. |
| Ownership.OwnersAreServed | mica2/src/mica/processor/partitions_impl/process.h:119-139 | A request is executed exactly if this core owns its partition at that point, the mode opens it to all cores, or the operation is unknown. |
| Ownership.TablesTouchedByOne | mica2/src/mica/processor/partitions_impl/process.h:119-175 | Two cores work on one table only if one of them executes a reset, or a read where concurrent reads are on, or a change where concurrent writes are on. |
| Ownership.ResetMeetsWrite | mica2/src/mica/processor/partitions_impl/process.h:148-160 | A run in which one core's reset and another core's write work on one table at the same time. |
| Ownership.ChangesArrive | mica2/src/mica/processor/partitions_impl/info.h:42-109 | As long as queues have had room, every change asked for is waiting, in the hands of a core, or applied, each exactly as often as it was asked for. |
| Ownership.StepConserves | mica2/src/mica/processor/partitions_impl/info.h:42-109 | No step loses or duplicates a change except by posting it to a full queue. |
| Ownership.AskedIfNew | mica2/src/mica/processor/partitions_impl/info.h:42-54 | A change is asked for exactly if the partition belongs to another core at that point. |
| Ownership.QueuesHoldFifteen | mica2/src/mica/util/queue.h:31-56 | In every reachable state no queue of changes holds more than fifteen. |
| Powers.NextPowerOfTwo | mica2/src/mica/util/roundup.h:24-40 | The result is at least the argument and less than twice it, or one. |
| Powers.NextPowerOfTwoIsPower | mica2/src/mica/util/roundup.h:24-40 | The result is a power of two. |
| Powers.PoolSizeIs | mica2/src/mica/pool/circular_log_impl.h:16-22 | The rounded size of a pool is a power of two of whole huge pages, not below the configured one and less than twice its page-rounded minimum, or one page. |
| Pipeline.WrappedTest | mica2/src/mica/processor/partitions_impl/process.h:36-65 | Comparing a wrapped unsigned index with the count tests both ends of the range. |
| Pipeline.StageIndices | mica2/src/mica/processor/partitions_impl/process.h:33-110 | Which request each stage handles in an iteration, for every gap and count. |
| Pipeline.Process | mica2/src/mica/processor/partitions_impl/process.h:11-300 | The pipelined loop equals the sequential loop: each request is looked at, and retired, exactly once, in index order, with the partition of its hash's high 16 bits; with concurrent writes off every accepted change, and with concurrent reads off every accepted read, was looked at while this core owned its partition; requests of the owner, requests that the mode opens to all cores and unknown operations are accepted; every batch packet is released exactly once. |
| Pipeline.LookUp | mica2/src/mica/processor/partitions_impl/process.h:63-69 | Notes the partition of a request without overwriting one that is still waiting. |
| Pipeline.LastStage | mica2/src/mica/processor/partitions_impl/process.h:108-240 | Looks at the oldest request with the partition noted for it, as the sequential loop does: accepted exactly if this core owns the partition, the mode opens the operation to all cores, or the operation is unknown. |
| Pipeline.RingPush | mica2/src/mica/datagram/datagram_server_impl.h:750-768 | Adding a request to the ring overwrites none that waits. |
| Pipeline.RequestAccessor.constructor | mica2/src/mica/datagram/datagram_server_impl.h:520-533 | An accessor over a burst of packets starts empty. |
| Pipeline.RequestAccessor.Prepare | mica2/src/mica/datagram/datagram_server_impl.h:536-544 | True exactly when the request with the index is in the ring; false only when all packets are parsed. |
| Pipeline.RequestAccessor.ParseRequestBatch | mica2/src/mica/datagram/datagram_server_impl.h:723-788 | Parses up to the next packet with requests; invalid packets are skipped, empty batches released, and the ring is not overwritten. |
| Pipeline.RequestAccessor.ParsePacket | mica2/src/mica/datagram/datagram_server_impl.h:750-768 | All requests of a packet enter the ring in order. |
| Pipeline.RequestAccessor.Retire | mica2/src/mica/datagram/datagram_server_impl.h:635-670 | Retires the oldest request and releases its packet exactly with its last request. |
| Pipeline.AllReleased | mica2/src/mica/datagram/datagram_server_impl.h:635-670 | After the burst exactly the batch packets have been released, once each. |
| Pipeline.BatchesInOrder | mica2/src/mica/datagram/datagram_server_impl.h:723-788 | A burst of packets with batches that clients wrote holds exactly their requests, packet after packet, each last one marked; packets that are no batches hold none. |
| Batch.LeRoundTrip | mica2/src/mica/datagram/datagram_protocol.h:31-44 | Little-endian numbers are recovered. |
| Batch.EncodedRequest | mica2/src/mica/datagram/datagram_protocol.h:165-208 | At an offset where a request was written the reader finds that request, and the next offset behind it. |
| Batch.EncodedLayout | mica2/src/mica/datagram/datagram_protocol.h:31-44 | Where each field of a request header stands, byte by byte. |
| Batch.ParseEncoded | mica2/src/mica/datagram/datagram_protocol.h:165-208 | Reading a finished batch yields exactly its requests and then stops. |
| Batch.Reader.FindNext | mica2/src/mica/datagram/datagram_protocol.h:165-184 | Moves to the next request, and reports none exactly when a whole request does not fit in the packet. |
| Batch.ReadAll | mica2/src/mica/datagram/datagram_protocol.h:165-184 | For any bytes whatever the reader terminates within the packet and yields exactly the requests found there. |
| Batch.Builder.Append | mica2/src/mica/datagram/datagram_protocol.h:345-369 | Adds one request behind the others, touching no byte before it. |
| Batch.SpaceTestRight | mica2/src/mica/datagram/datagram_protocol.h:298-302 | The space test, which does not count what is in the batch, is right for a request exactly if the request is too long for any packet or what the batch has used leaves room for it; it is right for all requests exactly if the batch is empty. |
| Batch.TooLong | mica2/src/mica/datagram/datagram_protocol.h:345-369 | Two values of 1440 bytes pass the space test one after the other; the packet then exceeds the longest frame. |
| Batch.Builder.AppendNoKeyValue | mica2/src/mica/datagram/datagram_protocol.h:321-343 | The same for a key and a value that already stand in the packet. |
| Batch.Builder.SetMagic | mica2/src/mica/datagram/datagram_protocol.h:286-294 | Marks the packet without disturbing its requests. |
| Batch.Builder.WriteHeader | mica2/src/mica/datagram/datagram_protocol.h:371-405 | The header written passes all checks of the reader, lengths included. |
| Batch.Builder.Finalize | mica2/src/mica/datagram/datagram_protocol.h:371-405 | The finished packet is valid, it names the number of its requests, and reading it gives back exactly the requests appended. |
| Batch.HeaderIsChecked | mica2/src/mica/datagram/datagram_protocol.h:60-118 | Of the bytes of a valid packet exactly those of types, fragments, protocol and lengths may not be changed, and the magic number only into the other one; bytes may neither be missing nor added. |
| Descriptors.EpochTells | mica2/src/mica/datagram/datagram_client_impl.h:711-713 | Two epochs are equal if and only if the number of releases in between is a multiple of 2^16. |
| Descriptors.WhoseResponse | mica2/src/mica/datagram/datagram_client_impl.h:711-713 | The epoch test tells rightly whether a response's request is outstanding if and only if its descriptor has not been released a positive multiple of 2^16 times since. |
| Descriptors.ThreadState.constructor | mica2/src/mica/datagram/datagram_client_impl.h:954-972 | All descriptors are unused, none is active. |
| Descriptors.ThreadState.Link | mica2/src/mica/datagram/datagram_client_impl.h:975-1006 | An unused descriptor goes to the end of the active list; both lists stay linked and partition all descriptors. |
| Descriptors.ThreadState.AppendRequest | mica2/src/mica/datagram/datagram_client_impl.h:928-937 | The new request has a descriptor that was not active, the latest deadline, and the opaque number of its descriptor and epoch. |
| Descriptors.ThreadState.Unlink | mica2/src/mica/datagram/datagram_client_impl.h:1010-1026 | A descriptor anywhere in the active list goes to the front of the unused list; both lists stay linked.  Called with an unused descriptor it leaves links, heads and a count that describe no two lists. |
| Descriptors.ThreadState.Release | mica2/src/mica/datagram/datagram_client_impl.h:1010-1037 | Completes exactly the request of an active descriptor, which had not been completed before; the release of an unused one breaks the lists. |
| Descriptors.ThreadState.HandleResponse | mica2/src/mica/datagram/datagram_client_impl.h:701-727 | A response to a request that this client has sent (an opaque number that was never handed out is excluded), early, late or duplicated, calls the handler exactly when its descriptor has been released a multiple of 2^16 times since; if its own request is outstanding, with that request's argument, completing it once; otherwise, for a positive multiple, the request now on the descriptor is completed, or the lists are broken if there is none; probes are ignored. |
| Descriptors.UnusedReleaseBreaks | mica2/src/mica/datagram/datagram_client_impl.h:1010-1037 | After the release of an unused descriptor no active and unused list fit the links, the heads and the count. |
| Descriptors.LateResponse | mica2/src/mica/datagram/datagram_client_impl.h:701-727 | A run with a duplicate that is 2^16 releases late: it completes a foreign request with that one's argument, or breaks the lists. |
| Descriptors.ThreadState.HandleTimeouts | mica2/src/mica/datagram/datagram_client_impl.h:750-765 | Completes exactly the expired requests, which are a prefix of the active list, and leaves none that has expired. |
| HugePages.Memory.constructor | mica2/src/mica/alloc/hugetlbfs_shm.cc:586-604 | With no page in use the bookkeeping is consistent. |
| HugePages.Memory.PickPages | mica2/src/mica/alloc/hugetlbfs_shm.cc:612-623 | The first free pages of the node. |
| HugePages.PagesHold | mica2/src/mica/alloc/hugetlbfs_shm.cc:606-608 | The pages wanted hold the length and one fewer would not; close to 2^64 the sum wraps and none is wanted. |
| HugePages.FreePagesAre | mica2/src/mica/alloc/hugetlbfs_shm.cc:612-623 | The free pages of a node are all that are present, not in use and of that node, in ascending order. |
| HugePages.Memory.Alloc | mica2/src/mica/alloc/hugetlbfs_shm.cc:586-654 | Succeeds exactly when the node has enough free pages, and then the first of them belong to the new entry alone; other entries are unchanged, and a failure leaves an empty entry. |
| HugePages.Memory.CheckRelease | mica2/src/mica/alloc/hugetlbfs_shm.cc:656-675 | Gives pages back exactly when the release is scheduled and no mapping is left. |
| HugePages.Memory.ScheduleRelease | mica2/src/mica/alloc/hugetlbfs_shm.cc:677-692 | Marks a live entry for release, which takes place at once if nobody maps it; an unused entry is refused. |
| HugePages.Memory.Map | mica2/src/mica/alloc/hugetlbfs_shm.cc:694-820 | Ends as mapped, refused, or reading a page index behind the entry's, which needs a range whose end wraps around; a mapping counts one more reference, and all page indices used are in range; the counts stay right if and only if the address is not null or nothing was mapped. |
| HugePages.Memory.Unmap | mica2/src/mica/alloc/hugetlbfs_shm.cc:822-862 | Removes the first mapping at the address and its reference; pages go back only with the last reference of an entry scheduled for release; the counts stay right if and only if the address is not null or no mapping is unused. |
| HugePages.RangeChecked | mica2/src/mica/alloc/hugetlbfs_shm.cc:719-746 | Of the ranges that pass the checks exactly those are outside the entry whose end wraps around 2^64 while their page count does not. |
| HugePages.WrappedRange | mica2/src/mica/alloc/hugetlbfs_shm.cc:694-820 | Such a range on an entry of one page: the call reads a page index behind the only one. |
| HugePages.Memory.MapNull | mica2/src/mica/alloc/hugetlbfs_shm.cc:694-820 | Mapping no bytes of a live entry at a null address leaves it with one reference more than it has mappings. |
| HugePages.UnmapTwice | mica2/src/mica/alloc/hugetlbfs_shm.cc:822-862 | Unmapping a page and then a null pointer takes an unused mapping for one of entry 0, whose count wraps to 2^64 - 1 and no longer is that of its mappings. |
| XxHash.BlocksAppend | nitrosketch/xxhash.cpp:411-435 | Mixing blocks in one after the other is mixing in their concatenation. |
| XxHash.MixBlocks | nitrosketch/xxhash.cpp:411-435 | The block loop mixes in exactly the whole blocks from a position on. |
| XxHash.OneShot32 | nitrosketch/xxhash.cpp:271-325 | The one-shot function computes the hash of the string as a whole. |
| XxHash.State32.constructor | nitrosketch/xxhash.cpp:373-385 | A new stream has been fed nothing. |
| XxHash.State32.Reset | nitrosketch/xxhash.cpp:373-385 | A reset stream has been fed nothing. |
| XxHash.State32.Update | nitrosketch/xxhash.cpp:388-447 | After an update the stream has been fed the concatenation, whatever waits in the buffer and however long the input. |
| XxHash.State32.Digest | nitrosketch/xxhash.cpp:461-497 | The digest is the hash of everything fed, also when the 32-bit length has wrapped. |
| XxHash.LengthsAdd32 | nitrosketch/xxhash.cpp:402-403 | The wrapped length and the flag for long input are right whatever the lengths. |
| XxHash.Streamed32 | nitrosketch/xxhash.cpp:373-497 | For every seed and every way of cutting the input the stream's digest is the one-shot hash. |
| XxHash.OneShot64 | nitrosketch/xxhash.cpp:642-708 | The one-shot function computes the hash of the string as a whole. |
| XxHash.State64.constructor | nitrosketch/xxhash.cpp:754-766 | A new stream has been fed nothing. |
| XxHash.State64.Reset | nitrosketch/xxhash.cpp:754-766 | A reset stream has been fed nothing. |
| XxHash.State64.Update | nitrosketch/xxhash.cpp:768-824 | After an update the stream has been fed the concatenation. |
| XxHash.State64.Digest | nitrosketch/xxhash.cpp:836-885 | The digest is the hash of everything fed, for lengths below 2^64. |
| XxHash.Streamed64 | nitrosketch/xxhash.cpp:754-885 | For every seed and every way of cutting the input the stream's digest is the one-shot hash. |
| HashBytes.EveryByteCounts32 | nitrosketch/xxhash.cpp:271-325 | With 32 bits, strings of one length that differ in exactly one byte have different hashes for every seed, be the byte in a block or behind the last one. |
| HashBytes.FourBytesApart | nitrosketch/nitrosketch.h:191-196 | Two different keys of four bytes have different 32-bit hashes for every seed. |
| HashBytes.LastBytesCount64 | nitrosketch/xxhash.cpp:642-708 | With 64 bits, strings of one length that differ in exactly one byte behind the last whole block have different hashes for every seed. |
| HashBytes.BlockBytesTell64 | nitrosketch/xxhash.cpp:657-667 | A changed byte in a whole block changes exactly one of the four 64-bit lanes. |
| KnownHashes.EmptyString32 | nitrosketch/xxhash.cpp:271-325 | The published hash of the empty string with seed 0. |
| KnownHashes.Text32 | nitrosketch/xxhash.cpp:271-325 | The hash of the same text with 32 bits. |
| KnownHashes.EmptyString64 | nitrosketch/xxhash.cpp:642-708 | The published hash of the empty string with seed 0. |
| KnownHashes.Text64 | nitrosketch/xxhash.cpp:642-708 | The hash of a text of 39 bytes with seed 0, which goes through blocks, words and single bytes. |
| Maglev.SizeIsPrime | maglev/src/maglev.hpp:237-237 | 65537 has no divisor but one and itself. |
| Maglev.NoZeroProduct | maglev/src/maglev.hpp:192-211 | Modulo the table size no product of non-zero numbers is zero. |
| Maglev.PermutesExactly | maglev/src/maglev.hpp:192-211 | A row is a permutation of the slots exactly when skip is neither 65536 nor 65535 with offset 65536, the pairs for which 32-bit arithmetic wraps. |
| Maglev.WrapsSomewhere | maglev/src/maglev.hpp:206-210 | The sum offset + 65536 * skip leaves 32 bits exactly for those pairs. |
| Maglev.RowReaches | maglev/src/maglev.hpp:192-211 | A permutation row reaches every slot. |
| Maglev.WrappingMissesOne | maglev/src/maglev.hpp:192-211 | A wrapping row reaches every slot but one: slot offset + 1 if skip is 65536 and offset is not, and slot 1 otherwise. |
| Maglev.LoadBalancer.constructor | maglev/src/maglev.hpp:62-74 | Every slot is free and the cache is empty. |
| Maglev.LoadBalancer.GeneratePermutations | maglev/src/maglev.hpp:192-211 | Every row is filled with its backend's preferences. |
| Maglev.LoadBalancer.Claim | maglev/src/maglev.hpp:218-227 | Resuming where the backend stopped, the claim still goes to the first free slot of its whole row; it fails exactly if the row has none, where the code would read on behind the row. |
| Maglev.LoadBalancer.Populate | maglev/src/maglev.hpp:213-235 | Terminates; fills every slot as by the plain procedure if and only if at every turn the row has a free slot; then backend k owns floor(65537 / n) slots, the first 65537 mod n backends one more. |
| Maglev.LoadBalancer.Setup | maglev/src/maglev.hpp:87-119 | Row i begins at its backend's first hash modulo 65537 and goes on by its second hash modulo 65536, plus one, unless its pair wraps.  Fails exactly if the row of the backend whose turn is the last one, number 65536 modulo their number, wraps and the slot it misses is the one left; so it never fails if that backend's pair does not wrap, and always if all rows miss the same slot; otherwise the table is full and balanced. |
| Maglev.PermutationsFill | maglev/src/maglev.hpp:213-235 | Rows that are permutations never run out of free slots before the table is full. |
| Maglev.OneBackend | maglev/src/maglev.hpp:213-235 | A single backend fills the table if and only if its row is a permutation. |
| Maglev.LastTurnDecides | maglev/src/maglev.hpp:213-235 | If every row reaches all slots, or all but one, no turn before the last can fail; the last fails exactly if its row misses the slot that is left. |
| Maglev.SameMissFails | maglev/src/maglev.hpp:213-235 | Rows that all miss the same slot never fill the table. |
| Maglev.BothMissOne | maglev/src/maglev.hpp:87-119 | Two backends with the same wrapping pair do not get a table. |
| Maglev.LoadBalancer.CachedBackend | maglev/src/maglev.hpp:144-183 | The cached answer is always the table's; the four entries of a bucket are a first-in first-out memory of the latest hashes, and no other bucket changes. |
| Maglev.EntryAdded | maglev/src/maglev.hpp:144-183 | Writing at the first unused entry, or behind the newest, keeps the entries in first-in first-out order. |

## Left out

- Network cards, DPDK, Enso, Hyperscan, directory services and memory mapping: foreign calls.  `mmap` appears as the number of pages that can be mapped (`HugePages.Memory.Map`), the network as packets that arrive and are released.
- Start-up scripts, experiment drivers, plotting and command lines: orchestration.
- Floating point: key distributions, rate limiters, sampling and status reports; thresholds computed with it are parameters.
- Quality of the hash functions: CityHash, jhash and the choice of a bucket in the Maglev cache are parameters.
- The sketch's heap and the median of five, prefetching, hints about recent keys, automatic stage gaps and statistics counters.
- `used_memory_` of the huge pages: the source subtracts a page count that it has just set to zero, so it is not conserved.
- SegregatedFit.Pool.constructor: does not model the mapping of the arena, which is a system call; its address is given.
- CircularLog.Log.constructor: does not model the mapping of the arena and its alias behind the end; positions are taken modulo the arena instead.
- SegregatedFit.Pool.Allocate: does not model an item size of 0, for which the class computation underflows; the precondition asks for at least one byte.
- LosslessTable.Table.Run: does not model concurrent requests, because the tables are sequential here; versions and interleavings are in Seqlock.dfy, which covers the table with the allocator and the mode with several writers.
- LosslessTable.Table.Get: does not model lengths that are not multiples of eight bytes, because the copies assert them.
- LossyTable.Table.Set: does not say what happens to a table after a spill or, with one bucket and a slot of 2^48 bytes, after an overwrite, except for the word that is overwritten, because later reads then depend on foreign bytes.
- LossyTable.Table.Get: asks for a valid table, as do delete, increment and moving to the head, because with one bucket and a slot of 2^48 bytes or more the validity test does not tell whether an item is still there; and does not say what stands in the buffer when a stale match has been copied before it was refused, because the caller gets not-found.
- CircularLog.Log.PushTail: does not model the wrap-around of the 64-bit head and tail; they count without bound.
- Seqlock.GetIsAtomic: does not model weak memory; steps are sequentially consistent, and the pool's own lock is not a separate step.
- Seqlock.WritersExclude: does not model the mode with one writer, whose lock is a plain increment.
- Ownership.ChangesArrive: does not promise delivery once a queue is full, because the source ignores the result of enqueue.
- Rebalance.RebalanceLoad: does not model the reset of the load statistics afterwards; a change is queued as in Ownership.dfy.
- Pipeline.Process: does not model the table operations behind an executed request and the response batches; a step records request, partition and decision.
- Pipeline.RequestAccessor.ParseRequestBatch: does not model the Enso branch, which does not advance past an invalid packet.
- Batch.Builder.Append: does not model what a write behind the end of the buffer does; the source never decreases its remaining space, so the precondition asks for room in the buffer.
- Descriptors.ThreadState.HandleTimeouts: does not model clocks beyond 2^63, for which the signed comparison is wrong, nor the mode that skips receiving.
- XxHash.State32.Update: does not model a null input, which is refused, and big-endian machines.
- XxHash.State64.Digest: does not model inputs of 2^64 bytes and more, which no one-shot call can take either.
- HashBytes.LastBytesCount64: does not say that a byte in a whole block changes the 64-bit hash, because each lane enters it twice when the lanes converge and the two may cancel; that the byte changes a lane is HashBytes.BlockBytesTell64.
- Maglev.LoadBalancer.CachedBackend: does not model the rest of DPDK's hash table; the bucket is a parameter.
- HugePages.Memory.Map: does not say what a read behind an entry's page indices returns, because that is undefined.
