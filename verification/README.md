# Tunprox and frlib: a verified model

A Dafny model of the parts of Tunprox (the kernel module `ldt-kmod`, the user library `ldt-tool`) and of its
support library `frlib` whose correctness is not visible from reading one function, and proofs of what those
parts are for. `dafny verify dfyconfig.toml` checks everything.

| files | system | what is proved |
|---|---|---|
| `Basics.dfy` | | options and bytes |
| `SemaphoreLock.dfy` | the reader/writer lock over three SysV semaphores | mutual exclusion, who is let in, and exact semaphore values in every interleaving, although unlock guesses from a stale snapshot; death with SEM_UNDO included |
| `TxQueue.dfy`, `TxScheduler.dfy`, `TxHandler.dfy` | the transmit queue, its producers and its two work items | no lost wakeup, draining, conservation of packets, order, which packet a full queue gives up, bounded length; the handler's loop refines the steps |
| `RangePool.dfy` | the pool of 64-bit ranges | exact set union and difference up to both ends of uint64, least first fit, conservation over any run |
| `ConfigNames.dfy`, `ConfigList.dfy`, `ConfigSpelling.dfy`, `ConfigTree.dfy`, `ConfigWalk.dfy`, `ConfigPaths.dfy`, `ConfigMerge.dfy`, `ConfigMergeWalk.dfy`, `ConfigInsertList.dfy` | the configuration store | the order of keys and which spellings are one key, the sorted array as a map, longest-prefix lookup along paths, what every insertion and a merge do to every lookup, unique directory numbers |
| `Crc32.dfy` | the table-driven CRC-32 | equal to the bit-by-bit CRC of section 8 of RFC 1952, and to its check value; a damaged byte is always noticed |
| `Md5Block.dfy`, `BlockHash.dfy`, `Md5.dfy`, `Md5Vectors.dfy` | the two MD5 implementations | both equal to RFC 1321, for every message and every way of cutting it; byte order, tables and constants fixed by laws and a test value of the RFC |
| `Roman.dfy`, `RomanShape.dfy` | Roman numerals | printing and reading back is the identity in every mode; what printed numerals look like; buffers are never overrun |
| `NetlinkReply.dfy`, `DeviceList.dfy` | the reply from kernel to user | chunking, in-place reassembly and splitting give back the data, and the device names, exactly |

Concurrent code is a state machine whose steps interleave freely. Code that changes an array, a list or an
object in place is a class or a method on an array. Each such method is proved against a function or a
predicate on values, and the lemmas are about those.

Places where the code does less than it seems to, each with the exact condition:

- `mutex_unlock` by a process that holds nothing: unless nobody held the lock at its snapshot, it gives a lock away
  exactly when at its release somebody holds one of the kind it saw; a writer then gets in exactly if that was the
  only one (`StrayUnlockDecided`). If nothing moves in between this is whenever somebody holds the lock
  (`StrayUnlockHarms`, at an input `StrayUnlockAdmitsWriter`); a stale snapshot can also come to nothing
  (`StaleStrayUnlockBlocks`).
- Packets leave in arrival order as long as at most one is in flight (`OneInFlightKeepsOrder`), and every run that
  ends with two in flight can go on to send them the wrong way round, also if no work item may overlap with itself
  (`TwoInFlightCanReorder`, at an input `OverlapReorders`). In the same way drop oldest gives up the oldest packet as
  long as at most one is in flight (`DropsTheOldest`), and with two it can give up the newer (`TwoInFlightCanDropNewer`).
- `ipool_choose` never serves from the full range 0 .. 2^64-1, whose size wraps to 0 (`FirstFitIsLeast`), and it
  does not refuse a negative count (`ChooseNegative`, at an input `MinusOneTakesAll`). `ipool_subtract_range` loses
  the upper part of a range when splitting it runs out of memory (`IPool.SubtractRange`, `IPool.SubtractPool`).
- `cmp_cv` is transitive on a set of keys exactly if no variable in it has two decimal indices a <= b and one that
  is not decimal and lies after b and before a as text (`CmpTransitiveIffNoClash`, at an input `MixedIndicesCycle`).
  The list is proved sorted when, for each variable name in a directory, all stored indices are decimal or none is.
  Looking up is then right for every index all the same.
- Lookup along a path tries shorter and shorter comma indices for every part, so a new entry with a longer index
  takes over lookups that a shorter one served, and what they found is lost: `d[a,b]/x` finds the x of `d[a]` until
  there is a directory `d[a,b]`, even an empty one (`NewDirHidesValue`, and by a merge `MergeHidesValue`). Exactly the
  lookups that come to the directory of the new entry with a part that tries it before anything stored there are
  diverted (`TakesIsLongest`, `EntryDecides`); what they then find is `StoredValueWalk` for a value, `NewDirWalk` for a directory,
  `InsertDir` and `InsertPath` for a whole path. After a merge the longer of the two longest indices decides at each
  part, and equal ones go on in both trees (`MergedWalk`, `MergeWalk`); when a lookup keeps its result is
  `WalkKeepsResult`. Lookups of exact paths are not affected (`NewDirKeepsValues`, `MergeIsOverrideUnion`).
- A value stored over a directory overwrites the directory number that shares its memory, is not found
  afterwards, and cuts off what was below (`LastValueWins`, `ValueOverDirectory`).
- `insert_list_into_list` moves the number counter of the destination only if the source owns text buffers. If it
  does not, later directories get fresh numbers exactly when the source brought no new directory
  (`CounterLeft`, with the consequence in `NumberUsedTwice`).
- `send_info` computes its buffer size in a u32; the reply fits exactly when that does not wrap (`SendInfo`).
- `num2roman` leaves less of a numeral than fits exactly when the buffer ends inside the number before a multiplier
  or right behind it (`KeptIsLongest`, `Print`, at an input `CutShortLosesLetters`).

Where code and comment differ the model follows the code. In `varcmp` the test after skipping the underscores of
the second name looks at the first name again (ext/frlib/lib/base/config.c:771); this changes no result.

## Model

| member | source | states |
|---|---|---|
| `SemaphoreLock.RdLockOutcome` | ext/frlib/lib/base/mutex.c:99-120 | the atomic semop of mutex_rdlock succeeds exactly when the write check is 0, and then adds one reader and its undo entry |
| `SemaphoreLock.WrLockOutcome` | ext/frlib/lib/base/mutex.c:124-147 | mutex_wrlock succeeds exactly when the write semaphore is free and there is no reader; all three operations or none |
| `SemaphoreLock.RdReleaseOutcome` | ext/frlib/lib/base/mutex.c:169-174 | what the reader branch of mutex_unlock leaves |
| `SemaphoreLock.WrReleaseOutcome` | ext/frlib/lib/base/mutex.c:175-184 | what the writer branch of mutex_unlock leaves |
| `SemaphoreLock.SnapshotIdentifies` | ext/frlib/lib/base/mutex.c:158-170 | a holder's GETALL snapshot always names the lock it holds |
| `SemaphoreLock.ReleaseSucceeds` | ext/frlib/lib/base/mutex.c:168-187 | a release under way never meets EAGAIN, whatever moved since the snapshot |
| `SemaphoreLock.RunKeepsInv` | ext/frlib/lib/base/mutex.c:56-188 | the invariant behind the results below, over every interleaving of lock, snapshot, release and death |
| `SemaphoreLock.MutualExclusion` | ext/frlib/lib/base/mutex.c:99-188 | in every reachable state a writer is alone and the semaphores are (1 - writers, writers, readers) |
| `SemaphoreLock.UnlockReleasesOwnLock` | ext/frlib/lib/base/mutex.c:151-188 | both halves of mutex_unlock act on the caller's own lock in every reachable state, and the release gives back exactly one |
| `SemaphoreLock.LockStateIsExact` | ext/frlib/lib/base/mutex.c:210-220 | mutex_islocked is true exactly when somebody holds the lock; a writer gets in exactly when nobody does, a reader exactly when no writer does |
| `SemaphoreLock.LockAdmits` | ext/frlib/lib/base/mutex.c:99-147 | in every reachable state a process that calls mutex_rdlock becomes a reader exactly when no writer holds the lock, one that calls mutex_wrlock the writer exactly when nobody does; refused, nothing changes; no other process is touched |
| `SemaphoreLock.ReadersShare` | ext/frlib/lib/base/mutex.c:99-120 | any number of processes that ask for a fresh lock to read all get it |
| `SemaphoreLock.DeathReleasesOwnLock` | ext/frlib/lib/base/mutex.c:110-117 | death with SEM_UNDO gives back the process's own lock and no other, even between snapshot and release |
| `SemaphoreLock.DeathKeepsLockWithoutUndo` | ext/frlib/lib/base/mutex.c:110-117 | death without SEM_UNDO leaves the lock taken for ever |
| `SemaphoreLock.StrayUnlockDecided` | ext/frlib/lib/base/mutex.c:151-188 | for a stray unlock with any run between its two calls: it does nothing exactly when nobody holds the lock at the snapshot; else it gives a lock away exactly when one of the kind seen is held at the release, and meets EAGAIN if not; who gets in afterwards |
| `SemaphoreLock.StrayUnlockHarms` | ext/frlib/lib/base/mutex.c:151-188 | with nothing between its two calls, a stray unlock succeeds, changes the semaphores exactly when somebody holds the lock, admits a writer exactly if at most one process did, and always admits a reader |
| `SemaphoreLock.StaleStrayUnlockBlocks` | ext/frlib/lib/base/mutex.c:158-187 | at an input: the snapshot sees a reader, the reader leaves, a writer enters, and the release meets EAGAIN |
| `SemaphoreLock.StrayUnlockAdmitsWriter` | ext/frlib/lib/base/mutex.c:151-188 | at an input: unlocking without holding lets a writer in beside the first reader |
| `TxQueue.Enqueue` | ldt-kmod/ldt_queue.c:155-162 | whether a packet is given up, and which: the front of the line under drop oldest, the new one under drop newest; what then waits, and that the queue stays within its limit |
| `TxQueue.ReverseTwice` | ldt-kmod/ldt_queue.c:200-228 | the kernel list, newest first, and the waiting line, oldest first, determine each other |
| `TxQueue.TpQueue.constructor` | ldt-kmod/ldt_queue.c:104-118 | an empty queue; a policy or length out of range leaves the default |
| `TxQueue.TpQueue.SetPolicy` | ldt-kmod/ldt_queue.c:121-128 | a policy out of range changes nothing |
| `TxQueue.TpQueue.SetMaxlen` | ldt-kmod/ldt_queue.c:131-138 | a length below 1 changes nothing |
| `TxQueue.TpQueue.InfDequeue` | ldt-kmod/ldt_queue.c:211-219 | the oldest packet leaves |
| `TxQueue.TpQueue.DoEnqueue` | ldt-kmod/ldt_queue.c:250-281 | the list ends up as the policy's function of the waiting line says, with the packet dropped |
| `TxQueue.TpQueue.DoDequeue` | ldt-kmod/ldt_queue.c:165-171 | the waiting line loses its head |
| `TxQueue.TpQueue.DoRequeue` | ldt-kmod/ldt_queue.c:174-181 | the packet is the head of the waiting line again |
| `TxQueue.TpQueue.IsFull` | ldt-kmod/ldt_queue.c:184-190 | only the limited policy ever reports a full queue |
| `TxScheduler.StepKeepsFlagBacked` | ldt-kmod/ldt_mpdccp.c:1140-1164 | has_delayed_work is backed by pending or imminent delayed work after every step |
| `TxScheduler.RunKeepsWakeInv` | ldt-kmod/ldt_mpdccp.c:1076-1084 | the wakeup invariant in every state of every run |
| `TxScheduler.NoLostWakeup` | ldt-kmod/ldt_mpdccp.c:1076-1192 | a packet queued or in flight is always going to be looked at: a pending item, an unfinished handler, or an undecided producer |
| `TxScheduler.ProducerFollowsFlag` | ldt-kmod/ldt_mpdccp.c:1076-1084 | a producer that reads a set flag queues nothing, one that reads a clear flag does, and neither changes anything else |
| `TxScheduler.RunsDrain` | ldt-kmod/ldt_mpdccp.c:1140-1192 | once arrivals and stalls stop, every schedule ends within a computed number of steps, with nothing queued or in flight |
| `TxScheduler.StepConserves` | ldt-kmod/ldt_mpdccp.c:1167-1192 | a step neither loses nor doubles a packet |
| `TxScheduler.PacketsConserved` | ldt-kmod/ldt_mpdccp.c:1076-1192 | every packet that arrived is in exactly one place: waiting, in flight, sent, dropped or failed |
| `TxScheduler.StepKeepsOrder` | ldt-kmod/ldt_mpdccp.c:1167-1192 | with one packet in flight at most, sent, in-flight and waiting packets stay in arrival order across requeues and drops, for any number of handlers |
| `TxScheduler.OneInFlightKeepsOrder` | ldt-kmod/ldt_mpdccp.c:1142-1192 | as long as at most one packet is in flight, packets leave in the order of arrival |
| `TxScheduler.TwoInFlightCanReorder` | ldt-kmod/ldt_mpdccp.c:1142-1192 | every run that ends with two packets in flight has a continuation that sends an older packet after a newer one, in which no work item overlaps with itself if none did before |
| `TxScheduler.SentInArrivalOrder` | ldt-kmod/ldt_queue.c:200-281 | in particular when handlers do not overlap |
| `TxScheduler.OverlapReorders` | ldt-kmod/ldt_mpdccp.c:1115-1137 | at an input: a run of the two work items, neither overlapping with itself, that sends packet 1 before packet 0 |
| `TxScheduler.QueueStaysBounded` | ldt-kmod/ldt_queue.c:250-281 | with at most h handlers and a limit that is not lowered, at most q_maxlen + h packets are held |
| `TxScheduler.ArrivalFollowsPolicy` | ldt-kmod/ldt_queue.c:250-281 | in every run: what an arrival adds to the line and to the packets dropped, under both policies, and that nothing else changes |
| `TxScheduler.OnlyArrivalsDrop` | ldt-kmod/ldt_mpdccp.c:1076-1192 | no other step drops a packet |
| `TxScheduler.DropsFollowPolicy` | ldt-kmod/ldt_queue.c:250-281 | over any stretch of a run: under drop newest no packet is given up that had arrived before, under drop oldest never the one that arrived last |
| `TxScheduler.DropsTheOldest` | ldt-kmod/ldt_queue.c:250-263 | as long as at most one packet is in flight, what drop oldest gives up is older than all that waits |
| `TxScheduler.TwoInFlightCanDropNewer` | ldt-kmod/ldt_queue.c:250-263 | every run that ends with two packets in flight can go on to one in which drop oldest gives up a packet while an older one waits |
| `TxHandler.FinishLooping` | ldt-kmod/ldt_mpdccp.c:1150-1163 | what the remaining steps of an undisturbed handler come to, for every number of packets already sent |
| `TxHandler.HandlerOutcome` | ldt-kmod/ldt_mpdccp.c:1142-1165 | what an undisturbed handler leaves: up to six packets sent in order; after six the immediate item, after a failure the flag and the delayed item, else nothing is queued; where the failed packet is |
| `TxHandler.Tunnel.ElabXmit` | ldt-kmod/ldt_mpdccp.c:1169-1192 | one packet sent, put back or failed, and the return value that tells which |
| `TxHandler.Tunnel.DoXmitHandler` | ldt-kmod/ldt_mpdccp.c:1142-1165 | the drain loop ends in the state that the machine's steps end in, and so in the one just described |
| `RangePool.SortedIsCanonical` | ext/frlib/lib/base/ipool.c:104-212 | sorted, disjoint and gapped lists that stand for the same set are the same list |
| `RangePool.UnionCorrect` | ext/frlib/lib/base/ipool.c:114-135 | replacing the ranges touched by their join is set union, and keeps order and gaps |
| `RangePool.DifferenceCorrect` | ext/frlib/lib/base/ipool.c:163-209 | replacing the ranges met by what is left of them is set difference, and keeps order and gaps |
| `RangePool.CutCorrect` | ext/frlib/lib/base/ipool.c:175-208 | what the second, third and fourth case leave is exactly the difference |
| `RangePool.SplitCorrect` | ext/frlib/lib/base/ipool.c:166-174 | cutting the range and adding the upper part again is the difference |
| `RangePool.IPool.AddRange` | ext/frlib/lib/base/ipool.c:105-148 | exact union over all of uint64; each error exactly when it applies, and then nothing changes |
| `RangePool.IPool.SubtractRange` | ext/frlib/lib/base/ipool.c:153-212 | exact difference over all of uint64; memory is needed only to split, and what is lost if there is none |
| `RangePool.IPool.SubtractPool` | ext/frlib/lib/base/ipool.c:215-227 | full set difference with another pool, whatever realloc answers at each call; memory fails it exactly if a range that needs a split meets none, and then which ranges are gone and what was lost with the last |
| `RangePool.FirstFitIsLeast` | ext/frlib/lib/base/ipool.c:243-246 | a fit exists exactly when the set has that many consecutive numbers, and starts as low as possible; the full range is the one exception |
| `RangePool.ChooseTakesLeastBlock` | ext/frlib/lib/base/ipool.c:231-251 | for a positive count: when ipool_choose fails, and that it removes exactly the least block otherwise |
| `RangePool.ChooseNegative` | ext/frlib/lib/base/ipool.c:243-250 | for every negative count: when it is served as a huge one, what is then taken out, and when it fails |
| `RangePool.MinusOneTakesAll` | ext/frlib/lib/base/ipool.c:243-250 | at an input: a count of -1 empties the pool 0 .. 2^32 |
| `RangePool.IPool.Choose` | ext/frlib/lib/base/ipool.c:231-251 | the method does what the lemmas about Chosen speak of, for every count |
| `RangePool.Serve` | ext/frlib/lib/base/ipool.c:105-251 | over any run of choosing and giving back, free and held numbers stay disjoint and their union is conserved |
| `ConfigNames.VarCmp` | ext/frlib/lib/base/config.c:756-785 | the loop compares leading underscores and then lower-cased letters without underscores |
| `ConfigNames.VarCmpIsPreorder` | ext/frlib/lib/base/config.c:756-785 | varcmp is a total preorder; ties are names that normalise to the same |
| `ConfigNames.IdxCmpZero` | ext/frlib/lib/base/config.c:741-751 | for all indices the comparison is 0 exactly when both mean the same number or the same text |
| `ConfigNames.TransitiveIffNoClash` | ext/frlib/lib/base/config.c:741-751 | the comparison is transitive on a set of indices exactly if no two decimal ones and one that is not decimal clash |
| `ConfigNames.MixedIndicesCycle` | ext/frlib/lib/base/config.c:744-751 | at an input: 9 < 10 < 1a < 9 |
| `ConfigNames.CmpCv` | ext/frlib/lib/base/config.c:729-752 | directory, then name, then index |
| `ConfigNames.CmpZero` | ext/frlib/lib/base/config.c:729-752 | cmp_cv is 0 exactly for keys of the same place |
| `ConfigNames.CmpIsOrder` | ext/frlib/lib/base/config.c:729-752 | on keys without a mix of index kinds cmp_cv is the order of the places |
| `ConfigNames.CmpTransitiveIffNoClash` | ext/frlib/lib/base/config.c:729-752 | cmp_cv is transitive on a set of keys exactly if no variable in it has clashing indices |
| `ConfigNames.OrderLaws` | ext/frlib/lib/base/config.c:729-752 | that order is total, antisymmetric and transitive |
| `ConfigSpelling.LexIsDictionary` | ext/frlib/lib/base/config.c:756-785 | the comparison of texts is that of a dictionary by character codes |
| `ConfigSpelling.NormMeans` | ext/frlib/lib/base/config.c:756-785 | two names are the same exactly if they have the same number of leading underscores and the same letters without underscores, up to ASCII case |
| `ConfigSpelling.AtoiIsDecimal` | ext/frlib/lib/base/config.c:744-750 | an index of digits counts as its decimal value |
| `ConfigSpelling.DigitCodes` | ext/frlib/lib/base/config.c:744-744 | digits are the characters with codes 48 to 57 |
| `ConfigSpelling.IndexMeans` | ext/frlib/lib/base/config.c:741-751 | two indices are the same exactly if they are digits that differ in leading zeros only, or other texts that differ in case only |
| `ConfigSpelling.PlaceMeans` | ext/frlib/lib/base/config.c:729-752 | cmp_cv is 0 exactly for keys of one directory that are the same in this sense |
| `ConfigSpelling.KeyOrder` | ext/frlib/lib/base/config.c:729-752 | which of two keys comes first: directory, name, no index, number, text |
| `ConfigSpelling.FoundUnderAnySpelling` | ext/frlib/lib/base/config.c:1717-1777 | a value stored under one spelling is what exactly the same spellings yield |
| `ConfigSpelling.StoreAndGet` | ext/frlib/lib/base/config.c:296-341 | storing under one spelling and getting under another, on the list |
| `ConfigList.PosFinds` | ext/frlib/lib/base/config.c:694-724 | in a sorted list the linear search stops at the entry asked for, for every key, also one of the other index kind |
| `ConfigList.InsertSorted` | ext/frlib/lib/base/config.c:1747-1776 | inserting where search_pos stops keeps the list strictly sorted |
| `ConfigList.RepresentsInsert` | ext/frlib/lib/base/config.c:1752-1776 | a new entry is one new binding of the map |
| `ConfigList.RepresentsReplace` | ext/frlib/lib/base/config.c:1747-1751 | overwriting an entry changes one binding and keeps its kind |
| `ConfigList.CvList.SearchPos` | ext/frlib/lib/base/config.c:710-724 | the first entry that is not below the key |
| `ConfigList.CvList.SearchPpos` | ext/frlib/lib/base/config.c:694-705 | map lookup |
| `ConfigList.CvList.ShiftUp` | ext/frlib/lib/base/config.c:1761-1766 | the entries from the position on move up by one, in order |
| `ConfigList.CvList.InsertVal` | ext/frlib/lib/base/config.c:1717-1777 | map update, for values and directories; the list stays sorted, terminated and without duplicates |
| `ConfigList.LastValueWins` | ext/frlib/lib/base/config.c:1717-1777 | after any sequence of values stored, a key yields the last one stored for it exactly if it was no directory |
| `ConfigList.OthersStay` | ext/frlib/lib/base/config.c:1717-1777 | and keys that were not stored yield what they did |
| `ConfigList.InsertAll` | ext/frlib/lib/base/config.c:1717-1777 | a run of insertions into the list is the sequence of map updates that these two are about |
| `ConfigList.ShorterPrefixes` | ext/frlib/lib/base/config.c:678-688 | the comma-prefixes of an index are the index and those of what comes before its last comma |
| `ConfigList.CvList.SearchRecIdx` | ext/frlib/lib/base/config.c:666-690 | the entry of the longest comma-prefix that is stored, or none if none is |
| `ConfigList.CvList.GetArrNoDef` | ext/frlib/lib/base/config.c:323-341 | its value, or nothing for a directory |
| `ConfigList.CvList.GetArr` | ext/frlib/lib/base/config.c:296-306 | falls back to the value without index; in a list of values gives nothing exactly when none of these is stored |
| `ConfigTree.PathIsUnique` | ext/frlib/lib/base/config.c:343-385 | one path leads to a directory, because numbers are unique and grow downwards |
| `ConfigTree.NewDirKeepsTree` | ext/frlib/lib/base/config.c:2150-2155 | a directory with the next number keeps the encoding of the tree sound |
| `ConfigTree.NewDirKeepsValues` | ext/frlib/lib/base/config.c:2150-2155 | and in exact lookup changes no value on any path |
| `ConfigTree.NewValueResolves` | ext/frlib/lib/base/config.c:2091-2098 | in exact lookup a value stored at a place is what the path to it finds, and no other path changes |
| `ConfigWalk.GetPath` | ext/frlib/lib/base/config.c:343-385 | what a path finds part by part, with the longest index stored for each; every path that has a value finds it, and without comma indices a path finds nothing else |
| `ConfigWalk.WalkFindsValue` | ext/frlib/lib/base/config.c:343-385 | shrinking indices never hide a value that is there |
| `ConfigWalk.PlainWalk` | ext/frlib/lib/base/config.c:343-385 | without comma indices the walk is exact lookup |
| `ConfigWalk.PrefixesAre` | ext/frlib/lib/base/config.c:678-688 | the indices tried are exactly the comma-prefixes, longest first |
| `ConfigWalk.WalksIsWalk` | ext/frlib/lib/base/config.c:343-385 | what a path finds is determined, and is what trying the indices in turn finds |
| `ConfigWalk.ResolveIsWalk` | ext/frlib/lib/base/config.c:343-385 | exact lookup is the case of one try for each part |
| `ConfigWalk.TakesIsLongest` | ext/frlib/lib/base/config.c:666-690 | a part takes a new entry exactly if its index is a comma-prefix of the part and longer than every one stored before, or the one stored already |
| `ConfigWalk.EntryDecides` | ext/frlib/lib/base/config.c:343-385 | after one new or changed entry, or a whole branch below it, every lookup finds what it found unless it takes that entry, and then goes on from there |
| `ConfigWalk.StoredValueWalk` | ext/frlib/lib/base/config.c:1717-1777 | for every lookup after one value stored: the value, nothing, or what it found, and which of them |
| `ConfigWalk.NewDirWalk` | ext/frlib/lib/base/config.c:2150-2155 | for every lookup after one new directory: nothing if it takes the directory, else what it found; when it keeps its result |
| `ConfigWalk.NewDirHidesValue` | ext/frlib/lib/base/config.c:2150-2155 | at an input: a new empty directory d[a,b] hides the x of d[a] from d[a,b]/x |
| `ConfigWalk.NewBranchWalk` | ext/frlib/lib/base/config.c:2079-2156 | a lookup that takes the top of a new line of directories finds what is at its end exactly if its parts fit the line |
| `ConfigPaths.EnsureDir` | ext/frlib/lib/base/config.c:2142-2155 | a directory found or made, or an invalid path exactly if there is a value |
| `ConfigPaths.InsertDir` | ext/frlib/lib/base/config.c:2103-2156 | fails exactly when a leading piece of the path is a value, and then changes nothing; otherwise the path is a directory; in exact lookup no value changes; every other lookup finds nothing if it takes the first new directory, else what it found |
| `ConfigPaths.InsertPath` | ext/frlib/lib/base/config.c:2079-2099 | when it fails, and that nothing changes then; otherwise the path has the new value and in exact lookup every other path its old one, or if the path was a directory that it and all below it are lost and all others kept; and for lookups with shrinking indices which find the value, which nothing and which what they found |
| `ConfigPaths.ValueOverDirectory` | ext/frlib/lib/base/config.c:1747-1751 | a value put over a directory is lost, all that was below is cut off, and all other paths keep their value |
| `ConfigMerge.StepKeepsInv` | ext/frlib/lib/base/config.c:1803-1827 | what every turn of the merge keeps: distinct numbers for distinct directories, entries copied, old ones kept, a sound tree |
| `ConfigMerge.TargetFits` | ext/frlib/lib/base/config.c:1803-1827 | if the trees agree in the kinds of indices, each source entry has the kind used where it goes, at every turn |
| `ConfigMerge.MergedPath` | ext/frlib/lib/base/config.c:1780-1841 | in exact lookup below any directory that takes part, source values override and the rest stays |
| `ConfigMerge.SourceOverrides` | ext/frlib/lib/base/config.c:1780-1841 | in exact lookup below the directory merged into, a path has the source's value if there is one, else its old value |
| `ConfigMerge.MergeIsOverrideUnion` | ext/frlib/lib/base/config.c:1780-1841 | the same for exact paths from any directory above: through the father the source overrides, all other paths are unchanged |
| `ConfigMerge.NewNumbersForNewDirs` | ext/frlib/lib/base/config.c:1805-1813 | new numbers are used exactly when the source has a directory the destination lacks |
| `ConfigMerge.CounterMoved` | ext/frlib/lib/base/config.c:1837-1838 | with the counter moved all numbers in use are below it |
| `ConfigMerge.CounterLeft` | ext/frlib/lib/base/config.c:1830-1838 | with the counter left alone this holds exactly if there was no new directory |
| `ConfigMergeWalk.FirstOfBoth` | ext/frlib/lib/base/config.c:1780-1841 | in a merged directory a part finds the longer of what it would find in the two trees |
| `ConfigMergeWalk.LongestOfBoth` | ext/frlib/lib/base/config.c:1780-1841 | the same in terms of comma-prefixes: the longest stored is the longest stored in either |
| `ConfigMergeWalk.MergedWalk` | ext/frlib/lib/base/config.c:1780-1841 | every lookup below a directory that takes part finds what it finds in the source or what it found before, as the longer index decides part by part |
| `ConfigMergeWalk.MergeWalk` | ext/frlib/lib/base/config.c:1780-1841 | the same for every lookup from a directory above the one merged into, or beside it |
| `ConfigMergeWalk.WalkKeepsResult` | ext/frlib/lib/base/config.c:1780-1841 | a lookup from the top keeps its result exactly if it does not come to the directory merged into, or the source does not decide from there, or finds the same |
| `ConfigMergeWalk.MergeHidesValue` | ext/frlib/lib/base/config.c:1780-1841 | at an input: merging an empty directory d[a,b] loses what d[a,b]/x found in d[a] |
| `ConfigInsertList.MergeEntry` | ext/frlib/lib/base/config.c:1804-1826 | the inner loop's body carries out one step of the merge |
| `ConfigInsertList.MergeLevel` | ext/frlib/lib/base/config.c:1800-1828 | the inner loop carries out the steps for one directory |
| `ConfigInsertList.MergeAll` | ext/frlib/lib/base/config.c:1790-1829 | the loops handle every entry of the source, each after the directory it lies in |
| `ConfigInsertList.InsertList` | ext/frlib/lib/base/config.c:1781-1841 | override-union on all exact paths; what every lookup with shrinking indices finds, from the top down to the directory merged into; the numbers in the list are unique, and exactly when later ones will be too |
| `ConfigInsertList.OneNewDirIsSound` | ext/frlib/lib/base/config.c:1800-1829 | a smallest plan that meets all conditions and brings a new directory |
| `ConfigInsertList.OneNewDirMerges` | ext/frlib/lib/base/config.c:1800-1829 | and is carried out in one step |
| `ConfigInsertList.NumberUsedTwice` | ext/frlib/lib/base/config.c:1830-1838 | the consequence of a counter left alone: a value stored in one directory shows up in another |
| `Crc32.TableIsBits` | ext/frlib/lib/base/crc.c:55-121 | each table entry is eight bit steps of its index |
| `Crc32.LookupIsBits` | ext/frlib/lib/base/crc.c:210-210 | one lookup and shift is eight bit steps of the register |
| `Crc32.FeedByteIsBits` | ext/frlib/lib/base/crc.c:210-210 | feeding a byte bit by bit is adding it and then eight bit steps |
| `Crc32.Frcrc` | ext/frlib/lib/base/crc.c:198-217 | the table-driven loop is the bit-by-bit CRC with polynomial 0xEDB88320, for every message |
| `Crc32.CheckValue` | ext/frlib/lib/base/crc.c:198-217 | the checksum of the digits 1 to 9 is 0xCBF43926 |
| `Crc32.RegisterIsInjective` | ext/frlib/lib/base/crc.c:209-211 | different registers stay different under the same input |
| `Crc32.DamagedByteDetected` | ext/frlib/lib/base/crc.c:198-217 | changing one byte anywhere changes the checksum |
| `Md5Machine.MovingIsFixed` | ext/frlib/lib/base/md5sum.c:242-250 | moving the four values on at each step is the same as RFC 1321's rotation of the operands |
| `Md5Block.WordIndex` | ext/frlib/lib/base/md5sum.c:251-272 | the computed index g is the word of the RFC's list at every step |
| `Md5Block.ShiftTable` | ext/frlib/lib/base/md5sum.c:64-68 | the shift table is the RFC's |
| `Md5Block.FunctionsAgree` | ext/frlib/lib/base/md5sum.c:252-269 | the rewritten F and G, and H and I, are the RFC's functions |
| `Md5Block.LeftRotIsCircular` | ext/frlib/lib/base/md5sum.c:241-241 | the two shifts are a circular shift |
| `Md5Block.OperationsAgree` | ext/frlib/lib/base/md5sum.c:242-272 | one step of the code is one operation of the RFC |
| `Md5Block.CodeIsTransform` | ext/frlib/lib/base/md5sum.c:224-280 | moving registers, rewritten functions and computed index together are the transform of section 3.4 of RFC 1321 |
| `Md5Block.DoRound` | ext/frlib/lib/base/md5sum.c:224-280 | the four loops compute that, and so the transform |
| `BlockHash.PaddingFillsBlocks` | ext/frlib/lib/base/md5sum.c:195-206 | padding gives the least whole number of blocks that holds it |
| `BlockHash.FinalOneBlock` | ext/frlib/lib/base/md5sum.c:195-207 | fewer than 56 bytes left over: one more block finishes the hash |
| `BlockHash.FinalTwoBlocks` | ext/frlib/lib/base/md5sum.c:198-207 | 56 bytes or more: two more |
| `BlockHash.OneShot` | ext/frlib/lib/base/md5sum.c:173-207 | docalc is padding, length and folding of sections 3.1 to 3.4, at every length |
| `BlockHash.Context.Calc` | ext/frlib/lib/base/md5sum.c:95-130 | the object stands for the message taken in so far, whatever the pieces |
| `BlockHash.Context.Get` | ext/frlib/lib/base/md5sum.c:133-157 | and finishes with the state of the whole message |
| `BlockHash.InPieces` | ext/frlib/lib/base/md5sum.c:95-157 | however a message is cut, the same state |
| `BlockHash.SameFinal` | ext/frlib/lib/base/md5sum.c:189-207 | block functions that agree everywhere hash alike |
| `Md5.CodeDigest` | ext/frlib/lib/base/md5sum.c:173-219 | a digest made with doround is the digest of RFC 1321 |
| `Md5.RunBlock` | ext/frlib/lib/base/md5sum.c:224-280 | doround on the bytes of a block, low-order byte first, is the block function that both interfaces run |
| `Md5.Md5Sum` | ext/frlib/lib/base/md5sum.c:173-219 | the digest of RFC 1321, from doround on every block |
| `Md5.Md5InPieces` | ext/frlib/lib/base/md5sum.c:95-169 | the same digest from the pieces, with doround on every block |
| `WordBytes.LeBytesBack` | ext/frlib/lib/base/md5sum.c:235-239 | the bytes of a word read from memory, by their weight, are the four bytes in order |
| `Md5Vectors.WordsAreLittleEndian` | ext/frlib/lib/base/md5sum.c:235-239 | the words of a block are its bytes, four by four, low-order byte first |
| `Md5Vectors.NumberOfLeBytes` | ext/frlib/lib/base/md5sum.c:195-206 | the length is appended as its bytes, low-order byte first |
| `Md5Vectors.InitialBytes` | ext/frlib/lib/base/md5sum.c:178-184 | the initial registers are the bytes of section 3.3 of RFC 1321 |
| `Md5Vectors.AbcDigest` | ext/frlib/lib/base/md5sum.c:173-219 | the digest of "abc" is that of appendix A.5 of RFC 1321, by all 64 operations |
| `Roman.RowFound` | ext/frlib/lib/base/roman.c:40-67 | the first row not above n is the letter and the amount described independently of the tables |
| `Roman.PrefixThenTop` | ext/frlib/lib/base/roman.c:40-59 | a prefix letter is followed by the greater letter it belongs to |
| `Roman.EffortDecreases` | ext/frlib/lib/base/roman.c:147-156 | the loop ends although a prefix makes n grow |
| `Roman.FindRow` | ext/frlib/lib/base/roman.c:148-148 | the scan finds that row |
| `Roman.DigitsParse` | ext/frlib/lib/base/roman.c:212-243 | reading the letters printed for n adds n, from any sum they may follow |
| `Roman.SkipStopsAtDigits` | ext/frlib/lib/base/roman.c:215-218 | the skip over m after a multiplier never eats a letter of the remainder |
| `Roman.PositiveParse` | ext/frlib/lib/base/roman.c:117-156 | reading a numeral with its multipliers gives its number, in every mode |
| `Roman.RoundTrip` | ext/frlib/lib/base/roman.c:74-248 | roman2num of num2roman of n is n and consumes the whole string, for every n and every combination of modes |
| `Roman.KeptIsLongest` | ext/frlib/lib/base/roman.c:117-160 | a buffer holds as much as it has room for exactly if it does not end inside the number before a multiplier or right behind it |
| `Roman.CutShortLosesLetters` | ext/frlib/lib/base/roman.c:132-146 | at an input: 4000 in two bytes leaves nothing, although a letter fits |
| `Roman.Print` | ext/frlib/lib/base/roman.c:75-161 | the returned length does not depend on the buffer; nothing is written outside it; exactly how much of the numeral it holds, and when that is all that fits |
| `Roman.Num2Roman` | ext/frlib/lib/base/roman.c:75-161 | the same with the parameter checks |
| `Roman.PutC` | ext/frlib/lib/base/roman.c:165-175 | a character is stored only where there is room |
| `Roman.ParseFrom` | ext/frlib/lib/base/roman.c:212-243 | the loop computes the function the lemmas are about |
| `Roman.Roman2Num` | ext/frlib/lib/base/roman.c:195-248 | number and length read |
| `Roman.PrintAndRead` | ext/frlib/lib/base/roman.c:74-248 | printing into a long enough buffer and reading the string in it gives n back |
| `RomanShape.DigitsWellFormed` | ext/frlib/lib/base/roman.c:147-156 | up to 3999, with subtraction no letter stands four times in a row, without it values fall and no letter stands five times; fives, fifties and five hundreds never twice, thousands never four times |
| `RomanShape.NumeralShape` | ext/frlib/lib/base/roman.c:75-161 | the same for every numeral; a star exactly above 3999 when neither cifrao nor dot is asked for, always with its m; those marks exactly from 1000 on; the sign, the case of the letters, and n exactly for zero |
| `RomanShape.LettersAndPairs` | ext/frlib/lib/base/roman.c:40-59 | the seven letters, and every power of ten before every greater letter, as printed |
| `RomanShape.RunBeforeGreater` | ext/frlib/lib/base/roman.c:224-241 | k equal letters before a greater one are taken off it, all of them |
| `RomanShape.IixIsEight` | ext/frlib/lib/base/roman.c:212-243 | at an input: IIX is read as 8 |
| `RomanShape.ReadAlike` | ext/frlib/lib/base/roman.c:212-243 | case does not matter to the reader, and neither does j for i or u for v |
| `RomanShape.JAndUCount` | ext/frlib/lib/base/roman.c:250-276 | which letters are read alike |
| `RomanShape.ReadStops` | ext/frlib/lib/base/roman.c:222-223 | reading stops at the first character that means nothing, and tells how much was left |
| `RomanShape.BlanksAndSigns` | ext/frlib/lib/base/roman.c:204-211 | at inputs: blanks and signs before a numeral |
| `NetlinkReply.AttrFields` | ext/frlib/lib/netlink/fnl.c:587-637 | what the attribute readers find at an attribute: its type, its length, its data, the next one |
| `NetlinkReply.ChunksLength` | ldt-kmod/ldt_netlink.c:1066-1081 | how much room the chunks take |
| `NetlinkReply.PayloadSuffices` | ldt-kmod/ldt_netlink.c:1044-1046 | the size asked for holds the attributes exactly when its computation does not wrap |
| `NetlinkReply.SendChunks` | ldt-kmod/ldt_netlink.c:1063-1087 | the chunk loop stores all the data, or fails exactly when it does not fit |
| `NetlinkReply.SendInfo` | ldt-kmod/ldt_netlink.c:1028-1102 | the whole message, exactly when the size does not wrap |
| `NetlinkReply.Scan` | ldt-tool/lib/ldt_nl.c:260-283 | the first pass: last return value and whether there is data |
| `NetlinkReply.CompactNext` | ldt-tool/lib/ldt_nl.c:287-301 | one attribute moved down; what is not yet read is never overwritten |
| `NetlinkReply.Compact` | ldt-tool/lib/ldt_nl.c:284-302 | the second pass leaves exactly the data at the start of the buffer |
| `NetlinkReply.GetInfo` | ldt-tool/lib/ldt_nl.c:260-314 | data with a NUL behind it, or none; and the return value |
| `NetlinkReply.ChunkListIsData` | ldt-kmod/ldt_netlink.c:1063-1087 | the chunks are attributes whose data in order is the data sent |
| `NetlinkReply.ChunkPieces` | ldt-kmod/ldt_netlink.c:1063-1087 | chunk i holds 4096 bytes from 4096 * i on, the last one what is left |
| `NetlinkReply.RoundTrip` | ldt-tool/lib/ldt_nl.c:260-314 | every block of data that can be sent comes back byte for byte; the return value as it is if not negative, else negated, except for INT_MIN |
| `DeviceList.PackNames` | ldt-kmod/ldt_dev.c:388-419 | the names, each with its NUL, in what was allocated; an empty list leaves an empty string |
| `DeviceList.CountSlots` | ldt-tool/lib/ldt_getinfo.c:164-164 | room for every pointer and the final NULL |
| `DeviceList.PointToFields` | ldt-tool/lib/ldt_getinfo.c:174-179 | a pointer to every field, none past the end of the array |
| `DeviceList.DropEmpty` | ldt-tool/lib/ldt_getinfo.c:180-187 | pointers to empty strings are squeezed out in place |
| `DeviceList.SplitGivesFields` | ldt-tool/lib/ldt_getinfo.c:163-187 | for every text the pointers give its non-empty fields in order |
| `DeviceList.DataSplitsIntoNames` | ldt-kmod/ldt_netlink.c:1044-1044 | the data sent for a list of names, the single NUL for an empty one included, splits into those names |
| `DeviceList.Transfer` | ldt-tool/lib/ldt_getinfo.c:157-189 | from the devices of the kernel to the array of the caller, the same names in order |

## Left out

- Timeouts, EINTR and the fallback of `mysemtimedop`, `mutex_funlock`, re-creation of a lock on an existing key, and processes that hold one lock twice: outside the protocol's intended use.
- The lock is modelled for processes that unlock only what they hold and use the same undo flag for lock and unlock; POSIX.1-2017 `semop` and its adjustment at exit are modelled, signals are not.
- A work item is not kept from overlapping with itself, so the transmit machine has more runs than a kernel whose work queues are not re-entrant; what holds of all its runs holds there too, and the runs said to exist are proved to avoid such an overlap.
- In the transmit path each `tpq_*` call and each access to the flag is one atomic step: that `tpq_inf_dequeue` looks and unlinks under two separate locks, and the memory ordering of the bit field, are not modelled.
- Packets are numbers: preparing and sending a packet, its memory, the statistics counters, and the refusal of packets by `mpdccptun_check_enqueue` are left out; the scheduler runs the two drop policies that the driver sets.
- Null pointer checks of C functions, allocation failure outside the pool, and `tpq_destroy`.
- Parsing and printing of pools as text, and subtracting a pool from itself (the loop would read the list it shrinks).
- Configuration text: files, includes, comments, quotes, `$` expansion, cutting a path at slashes and brackets, and undef; paths and names are given as their parts.
- ConfigPaths.ValueOverDirectory: after a value was put over a directory, the directory number is what the low bits of the pointer make of it, and a lookup would go on in that directory; here it leads nowhere.
- ConfigList.CvList.InsertVal: indices of one variable name in one directory are all decimal or all not, and decimal indices are mathematical integers, where `atoi` is limited to an int.
- Ownership of strings in the configuration lists and the list of text buffers, except for their number.
- Letters beyond ASCII in configuration names: the order of chars is that of their codes.
- `frcrc16` and `frcrc16tt`: the first is the same loop with another table, the second pairs a table and a shift that match no bitwise CRC.
- That the table of sines in MD5 is one: its 64 entries are fixed by the test value of the RFC. The textual encoding of digests and the byte swap on big-endian machines are left out.
- Roman.Num2Roman: mathematical integers, so the negation of INT_MIN and sums that pass INT_MAX are not modelled.
- NetlinkReply.GetInfo: for messages that consist of whole attributes; truncated or forged ones are not modelled, and the headers are opaque bytes.
- Sockets, connection set-up, timers, event messages, sysctl, the command line tools, archives and the remaining files of frlib: input and output dominate.
