# Dafny models of the key-value store, its filesystem, the heap and the queue

This project models four components of the repository and proves properties of them that
hold for all inputs, all histories and all interleavings.

**littlefs** (`components/tal_kv/littlefs`), the power-loss-safe filesystem under the
key-value store, in layers:

- *Metadata log* (`Tags`, `MetadataLog`, `Compaction`, `Splitting`, `NameSearch`,
  `NameOrder`). A directory is a log of 32-bit tags. Forward replay of creates, deletes and writes is the
  specification. The backward lookup with its running id correction, the forward search for
  a name, the quadratic filter that compaction uses and the splitting of a directory over
  several pairs are proved to agree with it, and everything that is written keeps the order
  that the search relies on.
- *Metadata pair* (`MetadataPair`, `Durability`). Two blocks with revision counters, run as a
  state machine whose events include a power loss at any program step. After every history a
  fetch finds the last completed commit or the one in flight, and what it finds means what
  all committed changes mean.
- *Global state and rename* (`GlobalState`, `StateWords`, `Rename`, `RenameRun`). State
  spread over all pairs as exclusive-or deltas is conserved by every operation on the list. A
  rename over two pairs runs as a state machine of program steps, power losses, mounts and
  clean-ups, with the move noted in the deltas of the logs: after every history a mount finds
  the file under exactly one of its two names, and cleaning up ends with no move left.
- *Files* (`BitMath`, `SkipIndex`, `SkipList`, `SkipExtend`). The index arithmetic is exact,
  lookup is logarithmic and correct, extension is copy on write.
- *Blocks* (`Allocator`, `BlockCache`, `TailWalk`, `Crc`). The lookahead allocator hands out
  no block twice, cached reads are plain reads, Brent's cycle detection decides whether the
  tail list loops, and the nibble-table CRC is CRC-32.

**The heap** of `port/linux/tuya_mem_heap.c` (`Bytes`, `HeapMemory`, `Heap`, `HeapObject`): an
address-ordered free list with headers and guard bytes inside the memory it manages, modelled
byte by byte. Every operation keeps an image in which blocks tile the region, free blocks are
linked in order and never adjacent, and users' bytes are their own.

**The queue** of `port/linux/tkl_queue.c` (`Queue`): the critical sections on the ring, and a
state machine of any number of threads that post, fetch, block with or without a timeout, are
signalled, time out and wake spuriously, tied to each other event by event.

**The record serializer** of `components/tal_kv/src/kv_serialize.c` (`Base64`, `KvText`,
`KvReader`, `KvSerialize`): the buffer bound of its first pass, and the round trip of printing
and reading a record, with a small reader for the printed subset of JSON (section 4 of
RFC 8259) and base64 for raw fields (section 4 of RFC 4648).

Code that changes things step by step is modelled by methods with loops and by classes whose
methods update their fields, proved against specification functions; the properties are
lemmas about those functions and invariants that every method keeps. The asserts of littlefs
are compiled out by `components/tal_kv/port/lfs_config.h` and appear here as preconditions.

Some properties turned out to hold under a condition only; the condition is proved together
with the case that fails:

- `mem_heap_init` stays inside its region exactly when the region has an aligned address, its
  end included (`Heap.InitExact`); `Heap.InitGoesWrong` gives a region smaller than its own
  misalignment and one whose address wraps when it is rounded up.
- `tuya_mem_heap_realloc` keeps a block that is too small when the size computation wraps,
  since it lacks the check of `MEM_Allocate` (`HeapObject.MemHeap.Realloc`; a request that
  does so is in `Heap.RequestWraps`).
- The direct read of `lfs_bd_read` makes no progress in front of the program cache unless the
  read size divides the program size (`BlockCache.StallsIff`).
- After a failed device read the read cache claims bytes it never received: it is right
  exactly if the bytes it held before happen to be those (`BlockCache.Device.Load`), and the
  next read returns them (`BlockCache.ReadAgain`, with wrong bytes in `BlockCache.ReadsWrong`).
- A rename is atomic under power loss (`RenameRun.RenameRuns`), but not when its first commit
  returns an error: the move stays noted in memory, the next commit of anything records it,
  and the file is found under neither name (`RenameRun.RefusedRenameLoses`). A commit keeps
  the old name exactly if no move of the file is noted in memory (`RenameRun.NextCommit`).
- The lookahead offset of `lfs_alloc_lookahead` is right exactly up to 2^31 blocks
  (`Allocator.OffsetExact`).
- `lfs_npw2` is the exponent of the next power of two only for arguments from two on
  (`BitMath.Npw2Least`).
- The queue loses a wake-up when a timed wait that was already signalled still reports a
  timeout, which the rules for condition variables permit (`Queue.SwallowForgets`,
  `Queue.MessageLeftLying`). If no fetch waits with a timeout no consumer is forgotten, if no
  post does no producer is (`Queue.QueueRuns`). When a signal fails, the caller is told that
  its message was not posted although it is in the queue.
- A string that fills its field without room for a terminator is printed but not restored
  (`KvSerialize.RestoreBack`).

## Model

| member | source | states |
|---|---|---|
| `Tags.UnpackPack` | components/tal_kv/littlefs/lfs.c:314-373 | a tag of four fields packed into its 32-bit word and taken apart again is the same tag, for every valid tag |
| `Tags.PackShift` | components/tal_kv/littlefs/lfs.c:686-746 | adding splices to a packed tag moves the id field alone, as long as the id stays within ten bits |
| `MetadataLog.ApplyAt` | components/tal_kv/littlefs/lfs.c:1212-1227 | what one log entry leaves at an id is what stood at its origin before the splice, plus the write itself if the entry is one |
| `MetadataLog.StepBack` | components/tal_kv/littlefs/lfs.c:686-746 | one step backwards: the answer after an entry is the answer before it at the corrected id, or the write itself, or nothing at a create or delete |
| `MetadataLog.NameAnswer` | components/tal_kv/littlefs/lfs.c:1212-1227 | in a well-formed log an entry has a name exactly when a lookup of its name finds one |
| `MetadataLog.WalkStep` | components/tal_kv/littlefs/lfs.c:699-735 | one iteration of the backward walk, with the id that stays inside its ten bits through every correction |
| `MetadataLog.GetSlice` | components/tal_kv/littlefs/lfs.c:686-746 | the backward walk with its running id correction finds what forward replay of creates, deletes and writes leaves there, under a pending move too; the buffer gets as many bytes as the entry has, from the offset on and zero-filled, so past the end of the entry unless offset and size stay inside, and leaving the block is an error |
| `MetadataLog.SliceInside` | components/tal_kv/littlefs/lfs.c:731-742 | a slice that stays inside the entry is that piece of its data; a read from the start is the data cut or zero-filled to the buffer |
| `Compaction.FindFilterAll` | components/tal_kv/littlefs/lfs.c:817-844 | filtering what was emitted by one later entry moves, drops and keeps every slot exactly as replay of that entry does |
| `Compaction.UniqueAnswers` | components/tal_kv/littlefs/lfs.c:817-844 | the entries that survive the filter answer every lookup as replay of the whole log does |
| `Compaction.UniqueTidy` | components/tal_kv/littlefs/lfs.c:817-844 | they come with every slot at most once and every attribute behind its name |
| `Compaction.TidyReplay` | components/tal_kv/littlefs/lfs.c:817-844 | such a list, read as a log of its own, reads as it is written |
| `Compaction.CompactedWellFormed` | components/tal_kv/littlefs/lfs.c:1901-2072 | the log that compaction writes is well formed |
| `Compaction.CompactionPreserves` | components/tal_kv/littlefs/lfs.c:1964-1978 | for every well-formed log and every range, the compacted log answers each lookup of the range as the original does, ids shifted by the begin of the range; names and structs by class, user attributes by exact type |
| `Compaction.CompactionCount` | components/tal_kv/littlefs/lfs.c:1964-1978 | and it has exactly the entries of that range, all named |
| `Compaction.VisibleAnswer` | components/tal_kv/littlefs/lfs.c:1417-1439 | a lookup under the mask that hides the superblock entry is the lookup by class, except that it does not see that entry |
| `Compaction.TraverseFilter` | components/tal_kv/littlefs/lfs.c:817-844 | the inner traversal of the filter returns the tag with its id moved by all later splices, or nothing when it is overwritten or deleted |
| `Compaction.Traverse` | components/tal_kv/littlefs/lfs.c:877-1069 | the outer loop over log and pending attributes emits exactly the compaction of the two together |
| `Splitting.PiecesAnswer` | components/tal_kv/littlefs/lfs.c:2074-2143 | a lookup through the chain of pieces gives the answer of the directory that was split |
| `Splitting.PiecesChain` | components/tal_kv/littlefs/lfs.c:2074-2143 | all pieces are well formed with every entry named, together they have as many entries as the directory that was split, and a lookup at any id, inside the range or behind it, gives the same answer |
| `Splitting.FindSplit` | components/tal_kv/littlefs/lfs.c:2084-2117 | a range that fits is left whole, and only such a range; otherwise the search ends halfway behind a place that did not fit, with a first piece that fits the limit or a single entry |
| `Splitting.FittingLeavesRoom` | components/tal_kv/littlefs/lfs.c:2084-2117 | a piece of several entries leaves 40 bytes of the block free and takes at most half of the metadata space, rounded up to whole programs |
| `Splitting.SplitLimitIs` | components/tal_kv/littlefs/lfs.c:2096-2110 | the limit is half of the metadata space rounded up to whole programs, or what leaves 40 bytes, whichever is less |
| `Splitting.SplitTails` | components/tal_kv/littlefs/lfs.c:2084-2143 | the loop splits off ends while they do not fit; the pieces it leaves are consecutive compactions of the directory |
| `Splitting.SplittingCompact` | components/tal_kv/littlefs/lfs.c:2074-2178 | split pieces and rest, chained by hard tails, are the directory that was to be compacted, entry for entry and with none added, also when the superblock pair expands |
| `Splitting.CountEntries` | components/tal_kv/littlefs/lfs.c:1212-1227 | the entry count gathered while scanning is the number of entries that replay leaves |
| `Splitting.FollowSplit` | components/tal_kv/littlefs/lfs.c:2336-2343 | an open entry is moved to the piece and id where it now lives |
| `NameSearch.OrderTrans` | components/tal_kv/littlefs/lfs.c:1417-1439 | the order of the code, in which a longer name precedes its own proper prefix, is a strict total order |
| `NameSearch.OrderParts` | components/tal_kv/littlefs/lfs.c:1417-1439 | a name goes before another exactly if its byte is smaller where they first differ, or if it goes on where the other one ends |
| `NameSearch.BdCmp` | components/tal_kv/littlefs/lfs.c:127-152 | the comparison in chunks of eight bytes gives the order of the first difference |
| `NameSearch.FindMatch` | components/tal_kv/littlefs/lfs.c:1417-1439 | the match callback returns the order of the two names |
| `NameSearch.KeysAnswer` | components/tal_kv/littlefs/lfs.c:1212-1227 | the names tracked along the log are the names that replay leaves |
| `NameSearch.ScanInvariant` | components/tal_kv/littlefs/lfs.c:1229-1280 | what the best tag means after every prefix: the live entry with the name, or the place in front of which everything goes before the name |
| `NameSearch.InsertKeepsSorted` | components/tal_kv/littlefs/lfs.c:1332-1343 | creating an entry at the place found keeps the directory sorted |
| `NameSearch.FetchMatch` | components/tal_kv/littlefs/lfs.c:1072-1347 | one forward pass returns the live entry of that name if there is one, and otherwise the id at which inserting keeps the directory sorted; a pending move counts as deleted |
| `NameSearch.FindInChain` | components/tal_kv/littlefs/lfs.c:1515-1533 | over a chain of hard tails, the first pair that does not pass on has the verdict for the whole directory |
| `NameOrder.CreateReady` | components/tal_kv/littlefs/lfs.c:1332-1343 | creating an entry with its name at the place that the search reported leaves a log that can be searched |
| `NameOrder.DeleteReady` | components/tal_kv/littlefs/lfs.c:1212-1227 | so does a delete |
| `NameOrder.CompactedReady` | components/tal_kv/littlefs/lfs.c:1964-1978 | so does compaction of any range, and the names are those of the range |
| `NameOrder.PiecesReady` | components/tal_kv/littlefs/lfs.c:2074-2143 | the pieces of a split directory are each searchable and their names in a row are the sorted names of the directory, as the search over the chain demands |
| `NameOrder.SearchableAfterRun` | components/tal_kv/littlefs/lfs.c:2181-2298 | after every history of commits that keep the names in order, compactions and power losses, the fetched log can be searched |
| `NameOrder.ReadFile` | components/tal_kv/littlefs/lfs.c:1506-1533 | finding a name in a pair and reading a slot of it reports what replay, with a pending move carried out, says about that name |
| `MetadataPair.NextIsNewer` | components/tal_kv/littlefs/lfs_util.h:162-166 | the successor of a revision compares as newer both ways round, across the wrap-around |
| `MetadataPair.ScmpIs` | components/tal_kv/littlefs/lfs_util.h:162-166 | the comparison is the difference as a signed 32-bit number |
| `MetadataPair.Fetch` | components/tal_kv/littlefs/lfs.c:1087-1198 | choosing the newer block first and falling back to the other yields the log of the valid commits of the block that wins |
| `MetadataPair.ScanReach` | components/tal_kv/littlefs/lfs.c:1109-1197 | a scan that ends clean has read all units of the block and none of them is torn |
| `MetadataPair.ScanReads` | components/tal_kv/littlefs/lfs.c:1109-1197 | a scan reads whole commits up to the first unit that does not fit: the log is what they say, and the block is clean exactly if nothing follows them and the last one carries a forward checksum |
| `MetadataPair.WrittenReads` | components/tal_kv/littlefs/lfs.c:1109-1197 | and whole commits that were written are read back, whatever their number |
| `MetadataPair.FetchedReads` | components/tal_kv/littlefs/lfs.c:1087-1320 | a pair can be fetched exactly if one of its blocks holds a valid commit, the more recent one wins, and it counts as erased behind its commits exactly if it is clean |
| `MetadataPair.PowerLossKeeps` | components/tal_kv/littlefs/lfs.c:1618-1760 | losing power at any program step, with any torn remainder (also an old block that is only partly erased), keeps the invariant of the pair |
| `MetadataPair.ExecKeeps` | components/tal_kv/littlefs/lfs.c:2218-2298 | every event of a history (mount, commit, fallback to compaction, program step, return, power loss) keeps it |
| `MetadataPair.FetchAfterRun` | components/tal_kv/littlefs/lfs.c:1901-1957 | after every history of appends, compactions and power losses the next fetch yields the log of the last commit that returned or of the commit in flight, across revision wrap-around and forced compaction |
| `MetadataPair.CommitCompletes` | components/tal_kv/littlefs/lfs.c:2181-2298 | a commit that is not interrupted ends with its attributes, in the block it was to go to, and more can be appended exactly if its seal carries a forward checksum |
| `MetadataPair.FallbackCompletes` | components/tal_kv/littlefs/lfs.c:2288-2298 | so does one that falls back to compaction half way |
| `MetadataPair.TornAppendNoticed` | components/tal_kv/littlefs/lfs.c:1286-1320 | after an append that lost power the next mount finds the old log and does not append behind it again |
| `Durability.MeansCommit` | components/tal_kv/littlefs/lfs.c:2218-2244 | committing the same change keeps two logs that no lookup can tell apart indistinguishable |
| `Durability.MeansRewrite` | components/tal_kv/littlefs/lfs.c:1964-1978 | compaction writes a log that cannot be told from the one it replaces |
| `Durability.ContentsAfterRun` | components/tal_kv/littlefs/lfs.c:2181-2298 | after every history, each lookup in the fetched log is answered as by replaying all changes ever committed, or those and the change in flight |
| `Durability.CommitIsKept` | components/tal_kv/littlefs/lfs.c:2181-2298 | a commit that returned is part of the history from then on: the pair means all changes before it and its own |
| `Durability.FormattedIsFaithful` | components/tal_kv/littlefs/lfs.c:1764-1860 | a pair that was just written starts such histories: any well-formed log in one commit, at any revision, in either block, beside a block without a valid commit |
| `GlobalState.AppendBalances` | components/tal_kv/littlefs/lfs.c:2246-2285 | the delta appended by a commit makes the exclusive or of all listed deltas follow the state in memory |
| `GlobalState.CompactBalances` | components/tal_kv/littlefs/lfs.c:1994-2040 | so does the one delta that compaction writes in place of all old ones of the pair |
| `GlobalState.SplitBalances` | components/tal_kv/littlefs/lfs.c:1829-1860 | a pair split off carries no delta and the balance stays |
| `GlobalState.StealBalances` | components/tal_kv/littlefs/lfs.c:2391-2413 | a dropped pair hands its delta to the pending one and the balance stays |
| `GlobalState.Lfs.Append` | components/tal_kv/littlefs/lfs.c:2246-2298 | after an appending commit the listed deltas sum to the committed state, the pending delta is empty, other pairs are untouched |
| `GlobalState.Lfs.Compact` | components/tal_kv/littlefs/lfs.c:1994-2040 | after compaction the same, or the balance with the pending delta while a relocation is under way |
| `GlobalState.Lfs.SplitTail` | components/tal_kv/littlefs/lfs.c:1829-1860 | splitting off a tail keeps the balance |
| `GlobalState.Lfs.Steal` | components/tal_kv/littlefs/lfs.c:1359-1375 | the state of a pair about to go moves to the pending delta |
| `GlobalState.Lfs.Commit` | components/tal_kv/littlefs/lfs.c:2181-2298 | every way a commit can end leaves the listed deltas summing to the committed state; the change goes to the log of that very pair, or in stated shares to the tails split off behind it, and all other pairs keep their logs and their order |
| `GlobalState.Lfs.Drop` | components/tal_kv/littlefs/lfs.c:1808-1827 | dropping a pair hands its delta to its predecessor, with the same promises about all others |
| `GlobalState.Lfs.Relocate` | components/tal_kv/littlefs/lfs.c:2391-2543 | one turn of the relocation loop, with or without a parent and a predecessor and with any number of orphans flagged before, writes to these two only and conserves the sum; the orphan count goes up exactly if the parent had to move itself, and a pending move is taken out exactly if it lies in a pair on the way |
| `GlobalState.Lfs.OrphaningCommit` | components/tal_kv/littlefs/lfs.c:2352-2543 | so does a commit with the whole chain of relocations it sets off, which is a row of commits to the pairs on the way; the orphans left flagged are counted, and reported exactly if there are any |
| `GlobalState.ChainKeeps` | components/tal_kv/littlefs/lfs.c:2352-2543 | over such a row of commits every pair that is not visited keeps its log |
| `GlobalState.Lfs.Mount` | components/tal_kv/littlefs/lfs.c:4464-4479 | the mount scan recomputes the committed state from the listed deltas alone |
| `GlobalState.MoveReadsBack` | components/tal_kv/littlefs/lfs.c:4767-4773 | a noted move is read back with its pair and id after the way to disk and the mount scan |
| `Rename.CreatedFile` | components/tal_kv/littlefs/lfs.c:3980-4009 | the entry created by the first commit leads from the new name to the moved contents |
| `Rename.CreatedOthers` | components/tal_kv/littlefs/lfs.c:3980-4009 | every other name of the new directory leads where it led |
| `Rename.DeleteLookup` | components/tal_kv/littlefs/lfs.c:4816-4848 | deleting an entry takes its name out and leaves every other name where it led |
| `Rename.FirstCommit` | components/tal_kv/littlefs/lfs.c:3980-3997 | the first commit is the point where the rename takes effect, for names and contents |
| `Rename.DemoveChangesNothing` | components/tal_kv/littlefs/lfs.c:4816-4848 | a log in which the delete was committed gives every lookup by name the answer that the pending move gave before |
| `NameOrder.DemoveUnseen` | components/tal_kv/littlefs/lfs.c:4816-4848 | searching any name and reading any of its slots reports the same with the move pending before the clean-up and with none after it |
| `Rename.RenameIsAtomic` | components/tal_kv/littlefs/lfs.c:3980-4009 | of the three states of the disk that the two commits go through, each has the file under exactly one name, with its type and contents and no other name affected |
| `StateWords.DecodeEncode` | components/tal_kv/littlefs/lfs.c:429-441 | a global state survives the way to the twelve bytes of its entry and back |
| `StateWords.GetGstate` | components/tal_kv/littlefs/lfs.c:1359-1375 | the backward search for the last delta of a log adds exactly that delta |
| `RenameRun.AppendStores` | components/tal_kv/littlefs/lfs.c:2246-2285 | an appended change with its delta means the change, keeps the directory searchable, and makes the deltas of all logs sum to the state |
| `RenameRun.RewriteStores` | components/tal_kv/littlefs/lfs.c:1964-2040 | so does a compacted one |
| `RenameRun.FsExecKeeps` | components/tal_kv/littlefs/lfs.c:3980-4009 | every event (mount, start of the rename, program step, fallback to compaction, return, second commit, clean-up, power loss) keeps the disk in one of the three states with the state in memory in balance, and never goes back behind a completed first commit |
| `RenameRun.RenameRuns` | components/tal_kv/littlefs/lfs.c:3900-4009 | after every sequence of these events a mount finds the file under exactly one of its names, with its contents, and no other name is affected |
| `RenameRun.RenameStays` | components/tal_kv/littlefs/lfs.c:3980-4009 | once the first commit has returned the file is found under the new name after whatever happens next |
| `RenameRun.CleanedUp` | components/tal_kv/littlefs/lfs.c:4816-4848 | mounted and at rest with no move pending, the old entry is deleted for good or the rename never took effect |
| `RenameRun.DemoveCleansUp` | components/tal_kv/littlefs/lfs.c:4816-4848 | wherever a move is pending, the clean-up takes its program steps and returns with the old entry deleted for good and no move left, appended or compacted |
| `RenameRun.CrashRecovers` | components/tal_kv/littlefs/lfs.c:4816-4848 | from every state power may be lost in, a mount and, if it finds a move, the clean-up end with no move left: either the rename never happened or the old entry is gone |
| `RenameRun.RetreatCompacts` | components/tal_kv/littlefs/lfs.c:2288-2298 | a commit that falls back to compaction goes on as one and returns with the same state |
| `RenameRun.RenameCompletes` | components/tal_kv/littlefs/lfs.c:3980-4009 | from every start, mount, first commit and second commit take their steps and return with the rename done and no move left |
| `RenameRun.SmallRename` | components/tal_kv/littlefs/lfs.c:3900-3930 | there is a filesystem and a request from which these runs can start |
| `RenameRun.NextCommit` | components/tal_kv/littlefs/lfs.c:2246-2285 | after any commit on the new pair the old name leads to the file exactly if the state in memory noted no move of it |
| `RenameRun.RefusedRenameLoses` | components/tal_kv/littlefs/lfs.c:3980-3997 | when the first commit returns an error instead, the next commit records the move that stayed noted, and neither name leads to the file |
| `RenameRun.ReadOld` | components/tal_kv/littlefs/lfs.c:1506-1533 | reading a file of the old directory while mounted reports what a mount from the disk alone would find |
| `RenameRun.ReadNew` | components/tal_kv/littlefs/lfs.c:1506-1533 | so does reading a file of the new one |
| `BitMath.Npw2` | components/tal_kv/littlefs/lfs_util.h:125-139 | the fallback binary search returns the binary length of its argument less one, and 32 and 1 for zero and one |
| `BitMath.Npw2Least` | components/tal_kv/littlefs/lfs_util.h:125-139 | that is the exponent of the next power of two exactly for arguments from two on |
| `BitMath.PopcPred` | components/tal_kv/littlefs/lfs_util.h:141-160 | ones of the predecessor, ones and trailing zeros of a number are tied by one equation |
| `BitMath.CtzStep` | components/tal_kv/littlefs/lfs_util.h:141-149 | stepping down by a power of two that divides a number keeps at least that many trailing zeros |
| `SkipIndex.CtzSumIs` | components/tal_kv/littlefs/lfs.c:2817-2828 | the pointers of the blocks 1 to n number 2n less the ones of n |
| `SkipIndex.LocatedOnce` | components/tal_kv/littlefs/lfs.c:2817-2828 | each 32-bit position lies at one block and offset only |
| `SkipIndex.PointersFit` | components/tal_kv/littlefs/lfs.c:4143-4148 | for all block indices a 32-bit file can reach, the pointers of a block fit a block of 128 bytes with room to spare |
| `SkipIndex.CtzIndex` | components/tal_kv/littlefs/lfs.c:2817-2828 | the two divisions and the count of ones give the unique block and offset of a position, for every 32-bit position and every block size of at least 128 |
| `SkipList.Hop` | components/tal_kv/littlefs/lfs.c:2841-2857 | a hop never passes the target, uses a pointer the block has, and lowers a potential of at most twice the bit length |
| `SkipList.Find` | components/tal_kv/littlefs/lfs.c:2830-2862 | the walk from pointer to pointer ends at the block and offset of the byte asked for, and passes at most twice as many blocks as the number of blocks has binary digits |
| `SkipList.Traverse` | components/tal_kv/littlefs/lfs.c:2964-3005 | traversal reports every block of the list once, from the last to the first |
| `SkipExtend.ExtendCopy` | components/tal_kv/littlefs/lfs.c:2900-2927 | copying an incomplete last block gives a list with the same bytes, by the pointers copied with it |
| `SkipExtend.ExtendFull` | components/tal_kv/littlefs/lfs.c:2929-2955 | a new block behind a full list holds the address of block n - 2^j at word j |
| `SkipExtend.FileSame` | components/tal_kv/littlefs/lfs.c:2865-2961 | as long as only a fresh block is written, the old head and size denote the same bytes |
| `SkipExtend.Flash.Attempt` | components/tal_kv/littlefs/lfs.c:2872-2953 | one block works exactly if it bears more operations than the extension needs: none for an empty file, a copy of the bytes of an incomplete last block, or the pointers of the next one |
| `SkipExtend.Flash.WritePointers` | components/tal_kv/littlefs/lfs.c:2929-2951 | the loop that chases pointers through the old blocks writes exactly those addresses |
| `SkipExtend.Flash.Extend` | components/tal_kv/littlefs/lfs.c:2865-2961 | the first block that bears all operations is taken, and none exactly if no block does; only blocks handed out by the allocator change, the old file reads the same, and the new list holds the old bytes with the write offset right behind them |
| `SkipExtend.WriteBehind` | components/tal_kv/littlefs/lfs.c:2929-2955 | bytes written at that offset make the file longer by just these bytes |
| `Allocator.OffsetExact` | components/tal_kv/littlefs/lfs.c:597-608 | the 32-bit lookahead offset is right for all blocks and offsets exactly on devices of at most 2^31 blocks |
| `Allocator.Lookahead.Mark` | components/tal_kv/littlefs/lfs.c:597-608 | the traversal callback sets the bit of that block and no other |
| `Allocator.Lookahead.Ack` | components/tal_kv/littlefs/lfs.c:613-615 | an acknowledgement starts a new round at the first block not yet examined |
| `Allocator.Lookahead.Gc` | components/tal_kv/littlefs/lfs.c:626-643 | a scan moves the window on to the first block not yet examined and marks exactly the blocks in use; it fails, and drops the window, exactly if the traversal does |
| `Allocator.Lookahead.Commit` | components/tal_kv/littlefs/lfs.c:610-615 | whatever the filesystem commits of the blocks handed out, no bit of the window becomes stale |
| `Allocator.Lookahead.Alloc` | components/tal_kv/littlefs/lfs.c:646-681 | over every run, a block handed out is neither in use nor handed out since the last acknowledgement; no space is reported only if every block was handed out, reported by an earlier scan or is in use; it fails exactly if one of its scans does, and the search ends |
| `BlockCache.StallsIff` | components/tal_kv/littlefs/lfs.c:92-106 | the direct read in front of the program cache always gets on exactly when the read size divides the program size |
| `BlockCache.Device.Load` | components/tal_kv/littlefs/lfs.c:108-121 | a cache load covers the byte asked for, aligned and inside the block; when the device read fails the buffer is as before, and the cache is right exactly if those bytes are the ones of the new window |
| `BlockCache.ReadAgain` | components/tal_kv/littlefs/lfs.c:92-121 | after such a failure the same read succeeds without asking the device and returns what the cache held before |
| `BlockCache.Device.Read` | components/tal_kv/littlefs/lfs.c:44-125 | a read ends and returns the device bytes overlaid by the program cache, out of range exactly when it leaves the block or the device, and fails only if a device read does |
| `BlockCache.Device.Compare` | components/tal_kv/littlefs/lfs.c:127-152 | the comparison in pieces of eight bytes gives the order of the device bytes and the given ones |
| `BlockCache.Device.Flush` | components/tal_kv/littlefs/lfs.c:176-206 | a flush writes whole program units and nothing else; when validated, or on a device that stores what it accepts, the device then holds them; it is rejected only by a validation that found other bytes, and fails only if the device does |
| `BlockCache.Device.Prog` | components/tal_kv/littlefs/lfs.c:227-271 | programming puts the bytes in what readers see and leaves open at most the gap in front of an unaligned start |
| `BlockCache.Device.Sync` | components/tal_kv/littlefs/lfs.c:211-223 | a sync makes the device what readers saw, apart from the filler of the last unit, with coherent caches |
| `BlockCache.Device.ProgramRun` | components/tal_kv/littlefs/lfs.c:176-271 | a run of consecutive programs ended by a sync leaves the device holding exactly these bytes |
| `TailWalk.LoopFound` | components/tal_kv/littlefs/lfs.c:4333-4350 | a list longer than the map of tails repeats itself within as many hops as there are pairs |
| `TailWalk.EndedDistinct` | components/tal_kv/littlefs/lfs.c:4558-4573 | a list that ends met no pair twice, in either order of its blocks |
| `TailWalk.Walk` | components/tal_kv/littlefs/lfs.c:4333-4350 | on every finite map of tails the walk ends within three times the number of pairs, reports a cycle exactly when the list loops, and otherwise visits every pair of the list once |
| `Crc.RtableIs` | components/tal_kv/littlefs/lfs_util.c:16-21 | every table entry is four single-bit steps of its index |
| `Crc.Nibble` | components/tal_kv/littlefs/lfs_util.c:25-28 | one table lookup is four message bits |
| `Crc.LfsCrc` | components/tal_kv/littlefs/lfs_util.c:15-31 | the nibble-table loop computes the bit-at-a-time CRC-32 of every byte string |
| `Crc.BdCrc` | components/tal_kv/littlefs/lfs.c:154-173 | feeding eight bytes at a time changes nothing |
| `Crc.ResidueZero` | components/tal_kv/littlefs/lfs.c:1746-1757 | feeding a stored little-endian word gives zero exactly when it is the running CRC |
| `Crc.CommitChecks` | components/tal_kv/littlefs/lfs.c:1728-1757 | so the re-check of a commit accepts a stored CRC exactly when the data has it |
| `Heap.BlockSizeSafe` | port/linux/tuya_mem_heap.c:283-289 | the wrap-around check rejects exactly the requests whose block size overflows; otherwise the block has room for header, request and guard |
| `Heap.InitInside` | port/linux/tuya_mem_heap.c:98-131 | the heap of a region with an aligned address spans it from its first to its last one |
| `Heap.InitExact` | port/linux/tuya_mem_heap.c:98-131 | for all regions: the claimed heap lies inside exactly if the region has an aligned address; otherwise it is accepted all the same and larger than the region |
| `Heap.InitGoesWrong` | port/linux/tuya_mem_heap.c:107-114 | a region where the subtraction wraps, and one where the rounding up does |
| `Heap.ReleaseImage` | port/linux/tuya_mem_heap.c:371-436 | releasing a block gives the image of the joined block list, in all combinations of free neighbours, with all other users' bytes in place |
| `Heap.PayloadImage` | port/linux/tuya_mem_heap.c:306-309 | whatever a user writes into its own area, the heap stays well formed |
| `Heap.FreedDog` | port/linux/tuya_mem_heap.c:349-363 | a released block keeps a header whose guard is marked free, so freeing it again at once is noticed |
| `Heap.CensusAdds` | port/linux/tuya_mem_heap.c:440-543 | the numbers of a status report account for every block and every free byte, and the largest is one of the free blocks |
| `HeapObject.MemHeap.Init` | port/linux/tuya_mem_heap.c:98-131 | the aligned part of the region becomes one free block and nothing outside of it is touched; a region without an aligned address is accepted and gets its header written outside |
| `HeapObject.MemHeap.FindFit` | port/linux/tuya_mem_heap.c:145-208 | the search finds a free block that fits if there is one: exactly the one that the first fit and up to three improvements by later blocks lead to, which is the smallest unless it was the third |
| `HeapObject.MemHeap.ChunkGet` | port/linux/tuya_mem_heap.c:133-211 | the chosen block is split or taken whole; blocks tile the region, the free list stays sorted and coalesced, all users keep their bytes |
| `HeapObject.MemHeap.Allocate` | port/linux/tuya_mem_heap.c:273-312 | null exactly when nothing was asked for, the request overflows or nothing fits; otherwise an area with room in front of its guard, with the free count and its low mark |
| `HeapObject.MemHeap.Deallocate` | port/linux/tuya_mem_heap.c:337-438 | a live block becomes free and joined with its free neighbours, the free count grows by its size, others keep their bytes; null and blocks not in use are left alone |
| `HeapObject.MemHeap.HeapStatus` | port/linux/tuya_mem_heap.c:440-543 | on every reachable heap the status walk ends valid with the right numbers |
| `HeapObject.MemHeap.FreeAll` | port/linux/tuya_mem_heap.c:337-438 | freeing all live blocks in any order restores one full-size block |
| `HeapObject.MemHeap.Realloc` | port/linux/tuya_mem_heap.c:620-651 | kept exactly when large enough, moved with all its old bytes otherwise, unchanged when there is no room; a kept block has room exactly when the size computation did not wrap |
| `Heap.RequestWraps` | port/linux/tuya_mem_heap.c:620-651 | a request for which every block of the heap seems large enough and none is |
| `Queue.RpaQueue.Insert` | port/linux/tkl_queue.c:130-136 | a message goes behind those in the ring, around its end |
| `Queue.RpaQueue.Remove` | port/linux/tkl_queue.c:233-239 | the oldest message comes out |
| `Queue.RpaQueue.TryPush` | port/linux/tkl_queue.c:112-147 | full rings are left alone; otherwise the message is in, a signal is due exactly when someone waits, and success is reported exactly when that works |
| `Queue.RpaQueue.TryPop` | port/linux/tkl_queue.c:215-250 | the same for taking a message |
| `Queue.RpaQueue.EnterPush` | port/linux/tkl_queue.c:149-182 | a push waits exactly when the ring is full and waiting was asked for |
| `Queue.RpaQueue.LeavePush` | port/linux/tkl_queue.c:173-213 | after the wait: nothing on a timeout or a full ring, otherwise the push |
| `Queue.RpaQueue.EnterPop` | port/linux/tkl_queue.c:252-284 | a pop waits exactly when the ring is empty and waiting was asked for |
| `Queue.RpaQueue.LeavePop` | port/linux/tkl_queue.c:275-317 | after the wait: nothing on a timeout or an empty ring, otherwise the pop |
| `Queue.StepKeeps` | port/linux/tkl_queue.c:112-317 | every step of every thread keeps counters and order, and no sleeper of either side is forgotten except when a timeout on that side swallows a signal |
| `Queue.SwallowForgets` | port/linux/tkl_queue.c:275-293 | exactly when a signal swallowed by a timed wait leaves a sleeper behind, for consumers and for producers |
| `Queue.QueueRuns` | port/linux/tkl_queue.c:112-317 | for every interleaving, messages fetched and messages queued are the messages posted, in order; if no fetch waits with a timeout every message has a woken consumer coming for it while one sleeps, if no post does every free place has a producer, and with timeouts both hold as long as none swallows a signal |
| `Queue.MessageLeftLying` | port/linux/tkl_queue.c:275-293 | a run in which a swallowed signal leaves a consumer asleep beside a message |
| `Queue.PostIsEnterPush` | port/linux/tkl_queue.c:149-182 | whatever the critical section of a push leaves in the ring and reports is what the event of the state machine leaves and records |
| `Queue.ResumePostIsLeavePush` | port/linux/tkl_queue.c:173-213 | the same for the section after its wait |
| `Queue.FetchIsEnterPop` | port/linux/tkl_queue.c:252-284 | the same for a pop |
| `Queue.ResumeFetchIsLeavePop` | port/linux/tkl_queue.c:275-317 | the same for the section after its wait |
| `KvText.DecimalLength` | components/tal_kv/src/kv_serialize.c:46-47 | a 32-bit number prints in at most eleven characters |
| `KvText.DigitsValue` | components/tal_kv/src/kv_serialize.c:82-97 | the digits printed are decimal, without a leading zero, and their place values add up to the number |
| `KvText.DecimalValue` | components/tal_kv/src/kv_serialize.c:82-97 | a minus sign stands in front of negative numbers only |
| `KvText.PrintedMembers` | components/tal_kv/src/kv_serialize.c:79-134 | members of every kind, spelled out |
| `KvText.PrintedObject` | components/tal_kv/src/kv_serialize.c:136-145 | members stand between braces, with a blank where the last comma was |
| `KvText.MemberFits` | components/tal_kv/src/kv_serialize.c:41-67 | no member takes more than what the first pass reserves for it |
| `Base64.DecodeEncode` | components/utilities/src/mix_method.c:467-490 | decoding base64 undoes encoding, for all bytes |
| `Base64.DecodeOnly` | components/utilities/src/mix_method.c:485-490 | what decodes consists of whole groups of symbols, padded in the last one only |
| `Base64.SymbolTable` | components/utilities/src/mix_method.c:467-473 | the alphabet of RFC 4648 |
| `Base64.EncodeGroups` | components/utilities/src/mix_method.c:467-473 | four symbols carry the 24 bits of three bytes, most significant first, with padding for the bytes that are missing |
| `Base64.EncodeLength` | components/utilities/src/mix_method.c:467-473 | encoding takes four characters for every three bytes begun, as the first pass reserves |
| `KvReader.ReadObjectBack` | components/tal_kv/src/kv_serialize.c:169-173 | reading a printed record as an object gives back its members in order |
| `KvSerialize.Measure` | components/tal_kv/src/kv_serialize.c:41-67 | the first pass adds up the budgets of all fields |
| `KvSerialize.PrintMember` | components/tal_kv/src/kv_serialize.c:79-134 | an entry with its transient terminators stays inside its budget |
| `KvSerialize.Serialize` | components/tal_kv/src/kv_serialize.c:39-150 | the second pass never writes past the length of the first and leaves the text of the record, terminated; only an unknown type fails |
| `KvSerialize.Deserialize` | components/tal_kv/src/kv_serialize.c:167-275 | fields are restored in order up to the first that fails its type, range or length check, with the code of that check; later fields are untouched |
| `KvSerialize.LookupFirst` | components/tal_kv/src/kv_serialize.c:178-180 | a field is read from the first member with its key |
| `KvSerialize.FoldCase` | components/tal_kv/src/kv_serialize.c:178-180 | keys match if they differ in nothing but the case of letters |
| `KvSerialize.RestoreNumber` | components/tal_kv/src/kv_serialize.c:180-228 | a number is stored exactly if it lies in the range of its type, an int cut off at its limits; anything else but a number is a type error |
| `KvSerialize.RestoreOther` | components/tal_kv/src/kv_serialize.c:180-258 | booleans, strings and raw data: what each JSON value gives, with the code of the error |
| `KvSerialize.RestoreRaw` | components/tal_kv/src/kv_serialize.c:252-258 | decoded bytes go in front, what is behind them stays |
| `KvSerialize.RestoreAbsent` | components/tal_kv/src/kv_serialize.c:192-195 | a field that the text does not mention is zeroed |
| `KvSerialize.RestoredTyped` | components/tal_kv/src/kv_serialize.c:178-258 | whatever is restored is a value of the type of its field |
| `KvSerialize.RestoreBack` | components/tal_kv/src/kv_serialize.c:178-258 | a value comes back exactly when, if it is a string, it leaves room for the terminator |
| `KvSerialize.RoundTrip` | components/tal_kv/src/kv_serialize.c:39-275 | for integers, booleans, strings and raw data with keys distinct ignoring case, every value printed is restored, empty strings and raw data through null |
| `KvSerialize.SaveAndLoad` | components/tal_kv/src/kv_serialize.c:39-275 | the two functions one after the other give back the record |

## Left out

- MetadataPair.FetchAfterRun: the checksum is an ideal validity mark (a torn commit never validates) and programs take effect in order; the link between checksum bytes and their acceptance is `Crc.CommitChecks`.
- MetadataPair.FetchedReads: disk versions before 2.1, whose support is a compile-time option, treat a missing forward checksum as erased space.
- MetadataPair.FetchAfterRun: no block of the pair is relocated; relocation appears in the conservation of the global state only.
- RenameRun.RenameRuns: covers a rename to a fresh name in another pair, where both commits may be appended or compacted; replacing an existing file, renaming within one pair, splitting or relocating one of the pairs, and dropping a source pair that became empty are not modelled.
- RenameRun.RenameRuns: a commit comes to its end unless power is lost; what a commit that returns an error leaves is stated by `RenameRun.RefusedRenameLoses` only.
- RenameRun.FsExecKeeps: compaction after a failed append filters the delta of the failed attempt along with the change; neither is part of the rewritten directory.
- Compaction.Traverse: the entries of a move source are given already expanded; the callback indirection of the traversal and its depth limit are not modelled.
- Compaction.CompactionPreserves: the byte that decides whether the region behind a commit was erased is a flag of the scan, without its bits.
- NameSearch.FetchMatch: names are compared as data of name tags; the superblock entry is hidden and sorts before all others.
- GlobalState.Lfs.Commit: a state word is the set of its one bits, so exclusive or is symmetric difference; the orphan count in the size field stays in memory, as in the code, and is outside the balance.
- GlobalState.Lfs.OrphaningCommit: what each turn finds is a script; a parent that moves is taken up by the next turn, and the clean-up of orphans afterwards is not modelled.
- SkipList.Find: positions lie inside the file, as all callers ensure.
- SkipExtend.Flash.Extend: reads of old blocks do not fail; a fault of a fresh block shows at an erase or program, after any number of good operations.
- Allocator.Lookahead.Alloc: the bitmap is an array of truth values, not of 32-bit words; devices have at most 2^31 blocks, where the offset formula is exact.
- BlockCache.Device.Read: the hint is at least one and small enough that no sum wraps around, as with all callers; inline files, whose data never leaves the program cache, are not modelled.
- BlockCache.Device.Prog: a program cache whose flush failed is dropped before the next program, as all callers do.
- TailWalk.Walk: a fetch finds the same tail whichever way round a pair is given; the period is not a 32-bit number, which matters from 2^31 pairs on only.
- BlockCache.Device.Load: a device read that fails leaves the buffer as it was.
- HeapObject.MemHeap.Init: the region ends below 2^32; of a region without an aligned address only the header is followed, since no heap comes of it.
- HeapObject.MemHeap.Deallocate: pointers have a header in front of them; that a pointer with a guard marked in use was handed out is a precondition, since the code cannot tell.
- Heap layout with 64-bit words: there the guard of a smallest block lies inside the header struct and is overwritten by the next pointer.
- HeapObject.MemHeap.HeapStatus: on heaps that are intact; what it reports about a corrupted one is not stated.
- Heap leak records, deletion of heaps, the counters over all heaps and the search over several heaps for handle 0.
- Queue.QueueRuns: locking and condition variables work as specified; the wall-clock computation of timeouts is replaced by a timeout at any time, and the terminated flag, which nothing sets, is left out.
- Queue creation and destruction, and the copies of message bodies made by post and fetch.
- KvSerialize.Serialize: the length of the first pass fits a 32-bit number.
- KvSerialize.Deserialize: raw fields have room for what is decoded into them, which the code leaves to its caller; numbers are integers, saturated to 32 bits like the parser's.
- Base64.DecodeEncode: blanks and line breaks inside base64 text, which a decoder may skip, count as malformed here, and malformed text decodes to nothing; the library behind `tuya_base64_decode` is not part of this model.
- KvReader.ReadObjectBack: which malformed texts are refused is up to the parser library, which is not part of this model; escapes, fractions, exponents and nested values are not part of the reader; keys and strings need no escapes (section 7 of RFC 8259).
- The fallback `lfs_popc` and `lfs_ctz`: compilers use their built-in counts, which `BitMath` models by their definition.
- littlefs migration from version 1, public wrappers, locking, tracing, byte-order conversion, format, grow and stat: plumbing around what is modelled.
- Flash and file access, encryption, networking, audio, logging and the other ports: device access and libraries.
