# A verified model of the range cache

The repository caches remote files piece by piece. A cached item is a sparse local file
together with the set of byte ranges that are already there; readers that miss bytes queue
up, downloads fill the gaps, and a cleaner throws data away when the cache is over its
quota. What the cache promises is simple: a read returns the bytes of the remote file. This
project models the parts that promise rests on and proves them in Dafny.

`dafny verify dfyconfig.toml` checks everything.

## How the project is laid out

| file | what it models |
|---|---|
| `Ranges.dfy` | the sorted, coalesced interval list, edited in place, and its queries |
| `PlainReader.dfy` | the reader both chunked readers must look like: a content and a position |
| `RwBuffer.dfy`, `ParallelReader.dfy` | the append-only buffer, and the reader that keeps several range downloads in flight |
| `SequentialReader.dfy` | the reader that opens one growing chunk after the other |
| `Item.dfy` | the cached item: its file, presence set, open count, grace timer, access and reset protocol |
| `Downloaders.dfy` | downloads with their window and limits, and the queue of waiting readers |
| `CacheMachine.dfy` | all interleavings of the threads around one item, as a state machine |
| `CacheCore.dfy` | what holds over every run: counters, queue, exclusion by a reset, the retry of failed resets |
| `CacheAgreement.dfy` | reads and present bytes agree with the remote, over every run without a harmful step |
| `CacheHarm.dfy` | the runs in which they do not, and exactly which states those start from |
| `CacheQueue.dfy` | over every run: when a queued reader is let through, and what a download under way brings |
| `CacheService.dfy` | over every undisturbed run, readers find what they were promised and have downloads under way |
| `CacheStranded.dfy` | the other runs: who keeps his range, who is still served and who is stranded after a removal |
| `CacheLife.dfy` | whole lives without failures: open, read, close, reset and eviction go through |
| `HeapOrder.dfy`, `WriteBack.dfy` | the write-back queue: heap with back-pointers, handle table, upload limit, one timer |
| `Stocks.dfy` | the items of a cache and the space they use |
| `Eviction.dfy`, `CleanerResets.dfy` | the cleaner's passes over all items: by age, by quota, by reset, and the retry of failed resets |
| `KickProtocol.dfy` | how threads that ran out of space and the cleaner wake each other |
| `Wrappers.dfy` | the option type |

Objects whose fields the source updates are classes here, and their methods are proved
against functions on values (`CacheItem.ItemState`, `DownloadGroup.Group`,
`PlainReader.Plain`, `Ranges.InsertSpec`). What is promised is then proved about those
functions, over runs of any length. Failing system calls are parameters: every statement
holds for every pattern of failures it does not name.

## Main results

* Over every interleaving of opens, reads, closes, downloader writes (also by downloads
  that were detached and have not stopped yet), kicks, grace timers, evictions and resets, and
  with other threads getting in wherever a removal gives up the item's lock: unless a step is
  harmful in one of the two ways described below, a read that returns nil or EOF returns what
  the remote holds there, and present bytes are the remote's bytes. Each way has its exact
  condition: a file left behind unsized, and a removal under a handle that is idle or about to
  return from its open, lead to a wrong read if and only if a stated byte is wrong.
* Over every run without exception, a reset excludes accesses, no more readers wait than are in
  an access, and an item left in reset by a lack of space is remembered for a retry that goes on
  to reset it.
* Over every run without exception, a queued reader is let through exactly when a kick finds his
  range present, and a download that leads over all he misses brings it, as long as the downloads
  stay attached, his does not end and nothing present is destroyed.
* Over every run in which no open gets in between the decision for a removal and the removal, and
  no new file stays unsized, that range stays present until the read is done, and a reader that
  queues up, or is still queued after a kick, has a download under way that covers all it
  misses. For the runs in which an open does get in there is the exact condition for each of these,
  and for a reader never to be let through again before something restores the item's size.
* Reads do succeed. From any item at rest, with or without a file, one handle can open it, read any
  part and close it: the read returns exactly the remote's bytes, from the file or after a download,
  and the item is at rest again. Over every undisturbed run a reader that was let through reads just
  what the remote holds, unless its handle is closed; an open, a read, a write and a reset fail
  exactly when a stated system call does.
* After any history of downloads the error count is the number of failures since the last success;
  once it is more than ten, the next kick leaves nobody waiting.
* Both chunked readers answer every sequence of reads, seeks and closes as the plain reader
  does.
* `Insert` in place keeps the interval list canonical with exactly the right bytes, and the
  canonical list is unique, so insertion order does not matter.
* The write-back queue keeps its heap, its back-pointers, its handle table and its upload
  count exact through every operation, and never loses a wakeup. A run of it starts just the items
  that are due, in the one order there is, and k failures in a row double the delay k times, up to
  five minutes.
* Quota eviction is least recently used first, minimal and conserving, and when access times
  differ its outcome is determined. When that is not enough, resetting goes on until the quota
  holds or nothing more can be had, and no item whose reset failed is forgotten. A whole pass does
  all of this in turn, and leaves no unused item past its age.

## Where the code and its promise part

* **An open that gets in while an item is being removed.** `RemoveNotInUse` and the first
  branch of `Reset` decide under the item's lock that nobody has the item open, but `_remove`
  gives that lock up to withdraw the item from the write-back queue, and destroys only then
  (internal/cache/item.go:936-945). An open that gets in keeps its handle on the unlinked file,
  while presence set and size are emptied under it: the next read wants nothing, finds the file
  long enough, and returns zeros for bytes that were never downloaded.
  `CacheHarm.OpenInGapReadsWrong` builds the run from any item at rest whose file is not complete;
  `CacheHarm.RemovalAgreesIff` says exactly when the removal does no harm: when the file is
  complete. The engine asks for the size right after each open (internal/read.go:44-56), which
  restores it, so there the wrong read is that of a second handle, before the first one has asked:
  `CacheStranded.SecondHandleReadsWrong`. The other uses of `_remove` have the same gap. Undoing a
  failed open there can leave a reader without a handle or a download, but never with a wrong byte;
  in the second part of `Reset` nobody else gets at more of the item than its size
  (`CacheCore.NobodyDisturbsReset`).
* **Readers of an item that is removed under them.** The same gap takes away what readers were
  promised. The opener that got in first is held up putting the item back into the map, which the
  cleaner has locked (internal/cache/cache.go:214-225), but others that join it read. One that was
  told that its range is present finds it absent (`CacheStranded.RemovalTakesRange`), unless the
  range is empty (`CacheStranded.RangeKeptIff`), though what it reads is right
  (`CacheStranded.ResumedReadsRight`). One that is queued stays served exactly when a download leads
  over the whole of its range from its start on (`CacheStranded.RemovalServesIff`). Otherwise it may
  wait in vain: an item taken for empty misses nothing (internal/cache/item.go:1181-1188), so
  `_ensureDownloader` starts no download and no kick helps (`CacheStranded.RemovalStrands`). While the
  size is not restored it can be let through if and only if nothing is missing, or a download that is
  still running, attached or detached, has not passed the first byte it misses
  (`CacheStranded.StrandedIff`). And a download that has passed emptied bytes is reused for them all
  the same (internal/cache/downloaders/downloaders.go:335-350); `CacheQueue.QueuedIsServedIff` says
  when.
* **A file that was created but could not be sized.** `_truncate` creates the file before it
  sets the length (internal/cache/item.go:239-300). When only the second part fails, an empty
  file stays behind; the next open takes its length for the size of the item
  (internal/cache/item.go:848-891), a read beyond it finds nothing to download, and `readAt`
  then extends the file with zeros and returns them (internal/cache/item.go:1362-1368).
  `CacheHarm.FailedSizingLeavesEmptyFile` and `CacheHarm.LeftOverReadsZero` build the run;
  `CacheHarm.LeftOverAgreesIff` says exactly when such a file does no harm: when the remote is
  zero from the file's end on.
* **A sequential reader whose next chunk could not be opened.** The old, exhausted stream
  stays in place, so a retried `Read` reports the end of the file
  (internal/chunkedreader/sequential.go:57-73). `SequentialReader.FailedReopen` is a concrete
  case, and `SequentialReader.Sequential.StuckAnswer` says when the answer is right by chance.
* **SeekCurrent after a seek and before a read** is relative to the marker -1
  (internal/chunkedreader/sequential.go:130-153); `SequentialReader.Sequential.TargetExact`
  gives the exact condition.
* **A pass of the cleaner that was not kicked** can end with the out-of-space flag up, when a
  kick comes after its purges (`KickProtocol.TimedPassMayEndOutOfSpace`);
  `KickProtocol.PassLeavesFlag` gives the exact condition. The kick that raised it is then
  still in the channel, so the next pass clears it.

## Hypotheses

The remote is fixed, of known size, and opening a range returns exactly its bytes, with an
inclusive end as in section 14.1.2 of RFC 9110. Items are only read (the engine opens files
read-only), and a read happens between an open and its close. `CachePollInterval` is positive,
the cache directory exists and `CacheMinFreeSpace` is not set. In the kick protocol the sizes of items
may grow by themselves during a pass of the cleaner, and they shrink only by it; the passes over
the items take them not to change by themselves. A timer does not fire early.

## Model

| member | source | states |
|---|---|---|
| Ranges.Range.Clip | lib/ranges/ranges.go:25-37 | exactly the bytes of the range before the offset remain |
| Ranges.Range.Intersection | lib/ranges/ranges.go:39-49 | exactly the bytes in both ranges |
| Ranges.Merge | lib/ranges/ranges.go:56-72 | succeeds exactly when the ranges touch or overlap, and then has exactly the bytes of both |
| Ranges.SearchSplits | lib/ranges/ranges.go:98-105 | the binary search splits a canonical list into the ranges that start before r and those that do not |
| Ranges.RangeSet.Coalesce | lib/ranges/ranges.go:74-96 | from a list whose range i may touch or overlap any others, the in-place shifting and chopping gives a canonical list of the same bytes |
| Ranges.RangeSet.Insert | lib/ranges/ranges.go:107-128 | the list stays canonical, its bytes are the old ones and those of r, and it equals the reference InsertSpec |
| Ranges.InsertSpecExact | lib/ranges/ranges.go:107-128 | the reference function, a plain recursive splice without search or shifting, gives the canonical list of the united bytes |
| Ranges.CanonicalUnique | lib/ranges/ranges.go:61-96 | two canonical lists with the same bytes are identical |
| Ranges.InsertOrderIrrelevant | lib/ranges/ranges.go:107-128 | inserting the same ranges in any order, with any repetitions, gives the identical list |
| Ranges.InsertGrowth | lib/ranges/ranges.go:250-256 | an insertion raises the number of bytes by exactly those newly covered |
| Ranges.FindExact | lib/ranges/ranges.go:141-178 | Find cuts off the longest prefix of r that is wholly present or wholly absent, says which, and the rest continues there with the opposite presence |
| Ranges.FindAll | lib/ranges/ranges.go:189-200 | terminates; its pieces are non-empty, contiguous, tile r exactly, are wholly present or absent, and alternate |
| Ranges.PresentExact | lib/ranges/ranges.go:202-215 | Present holds if and only if every byte of r is in the set |
| Ranges.Intersect | lib/ranges/ranges.go:217-232 | the exact intersection with r, in canonical form |
| Ranges.Equal | lib/ranges/ranges.go:234-248 | true if and only if the byte sets are equal |
| Ranges.Size | lib/ranges/ranges.go:250-256 | the number of bytes in the set, and no partial sum leaves int64 when all ends fit |
| Ranges.FindMissingExact | lib/ranges/ranges.go:270-283 | the result starts at the least absent byte of r, or at its end, keeps the end of r, and is empty exactly when all of r is present |
| Ranges.MergeClipStayInInt64 | lib/ranges/ranges.go:16-72 | no intermediate result of End, merge and Clip leaves int64 for non-negative positions whose ends fit |
| Ranges.InsertStaysInInt64 | lib/ranges/ranges.go:107-128 | inserting a range that fits keeps all ranges within int64 |
| RwBuffer.RW.ReadFrom | lib/rwbuffer/rwbuffer.go:48-67 | the whole source ends up in the buffer, in order, and the returned count is what was left of it |
| RwBuffer.RW.Read | lib/rwbuffer/rwbuffer.go:70-81 | returns the next bytes of the source, as many as are buffered up to the limit, and EOF exactly when none is |
| RwBuffer.RW.Seek | lib/rwbuffer/rwbuffer.go:120-143 | refuses a negative target and moves nothing; otherwise clamps it to the buffered size |
| ParallelReader.Parallel.constructor | internal/chunkedreader/parallel.go:136-153 | the chunk size is rounded up to the next multiple of the buffer size, at least one buffer, and as many streams may run as asked for |
| ParallelReader.Stream.Read | internal/chunkedreader/parallel.go:87-110 | returns exactly the requested bytes of its range, short only at its end, which it reports when and only when it is reached |
| ParallelReader.Parallel.Open | internal/chunkedreader/parallel.go:158-191 | opens streams of whole chunks behind the last one until the full number runs or the end of the file is reached, keeping the tiling |
| ParallelReader.Parallel.PopStream | internal/chunkedreader/parallel.go:196-205 | drops the first stream, and the others still tile up to the same end |
| ParallelReader.Parallel.Read | internal/chunkedreader/parallel.go:219-254 | keeps the invariant (streams tile without gap or overlap up to endStream, at most nstreams of at most chunkSize, the first one read up to the offset, the others unread) and answers as the plain reader: the remote bytes, short only at end of file |
| ParallelReader.Parallel.Seek | internal/chunkedreader/parallel.go:273-341 | answers as the plain reader for all three origins, refusing what it refuses; the streams from the one that downloads the target on are kept and all others go, and a refused seek keeps every one |
| ParallelReader.Parallel.Close | internal/chunkedreader/parallel.go:259-270 | answers as the plain reader, and a second close is refused |
| ParallelReader.Parallel.Execute | internal/chunkedreader/parallel.go:219-341 | over every sequence of reads, seeks and closes the replies are those of the plain reader |
| SequentialReader.Sequential.constructor | internal/chunkedreader/sequential.go:30-39 | starts at position 0 with no stream open and the initial chunk size |
| SequentialReader.Sequential.OpenRange | internal/chunkedreader/sequential.go:174-217 | a refused open leaves everything as it was; otherwise the stream is the chunk's bytes, and the chunks opened since the seek stay contiguous |
| SequentialReader.Sequential.Read | internal/chunkedreader/sequential.go:42-96 | returns the remote bytes at the abstract position, short only at end of file or at a refused open, whatever chunk boundaries it crosses |
| SequentialReader.Sequential.ChunksStayInInt64 | internal/chunkedreader/sequential.go:57-73 | an automatically sized chunk is at most the initial size and the bytes of the file, so doubling stays within int64 under the stated bound |
| SequentialReader.Sequential.NextChunk | internal/chunkedreader/sequential.go:57-73 | the next chunk continues the chain with the size that is due: double the last one up to the maximum, or the initial size after one of its own length |
| SequentialReader.Sequential.ChunksDouble | internal/chunkedreader/sequential.go:57-73 | in any state, the i-th chunk opened since the last seek has the initial size doubled i times, or the maximum |
| SequentialReader.Sequential.RangeSeek | internal/chunkedreader/sequential.go:122-155 | positions at the target within the file, otherwise refuses and leaves the position at 0 |
| SequentialReader.Sequential.TargetExact | internal/chunkedreader/sequential.go:130-153 | the target is the plain reader's if and only if the seek is not relative to a position behind an unread seek |
| SequentialReader.Sequential.StuckAnswer | internal/chunkedreader/sequential.go:57-73 | after a failed reopen the EOF that follows is right if and only if the position is at the end of the file |
| SequentialReader.FailedReopen | internal/chunkedreader/sequential.go:57-73 | a concrete run of three reads: the first byte, a refused open, and an end of file one byte too early |
| SequentialReader.Sequential.Execute | internal/chunkedreader/sequential.go:42-155 | with opens that succeed, over every sequence of reads, closes and seeks from start or end, the replies are those of the plain reader |
| CacheItem.Item.WriteAtNoOverwrite | internal/cache/item.go:1419-1464 | also on a short or failed write: present bytes are unchanged, absent bytes of the processed prefix take the new data, exactly that prefix is added to the set, skipped counts the bytes that were present, and all of b is processed exactly when no error is returned; an error comes only at an absent byte, and with an open handle only from a write call that the system cut short, with its error; the branch for a wrong offset is unreachable |
| CacheItem.MarkedExact | internal/cache/item.go:1240-1243 | the set gains exactly the written bytes if and only if it is what Insert makes of it |
| CacheItem.PresentCountExact | internal/cache/item.go:1441-1445 | the count of skipped bytes is the size of the intersection of the set with the written range |
| CacheItem.StepPresent | internal/cache/item.go:1440-1445 | skipping a present piece keeps the account of what was processed |
| CacheItem.StepAbsent | internal/cache/item.go:1446-1460 | writing a prefix of an absent piece, however short, keeps the account of what was processed |
| CacheItem.CountPresent | internal/cache/item.go:1440-1457 | the count of present bytes grows by a present piece and not by an absent one |
| DownloadGroup.MissingExact | internal/cache/item.go:1181-1188 | FindMissing of an item starts at a missing byte, ends at the range's end or the file's, and nothing else of the range is missing |
| DownloadGroup.EnsureKeepsCovered | internal/cache/downloaders/downloaders.go:282-367 | looking for or starting a download never fails inside the file, and every download keeps [start, offset) present |
| DownloadGroup.NearMissing | internal/cache/downloaders/downloaders.go:335-350 | the reuse test never picks a download that is already past the missing byte |
| DownloadGroup.EnsureCovers | internal/cache/downloaders/downloaders.go:282-367 | afterwards nothing of the wanted range is missing, or an unclosed download has start <= pos, offset <= pos < offset + window and a maximum behind the end of what is missing |
| DownloadGroup.EnsureReaches | internal/cache/downloaders/downloaders.go:282-367 | the same byte by byte: of the range and its read-ahead nothing is missing, or one open download has passed no missing byte and has its maximum behind all of them |
| DownloadGroup.EnsureStartsIff | internal/cache/downloaders/downloaders.go:324-367 | a request for missing bytes starts a download exactly when no open one is less than a mebibyte before them, and no maximum moves beyond the range, its read-ahead and the file |
| DownloadGroup.EnsureFailsIff | internal/cache/downloaders/downloaders.go:324-367 | it fails, and counts as an error, exactly when a download would have to start behind the end of the source |
| DownloadGroup.NothingMissingKicks | internal/cache/downloaders/downloaders.go:300-350 | when nothing is missing none is started, and the first one that nears the end of the window goes on to it |
| DownloadGroup.WindowEnds | internal/cache/downloaders/downloaders.go:300-323 | the window ends at the first missing byte of the mebibyte behind the range, or after that |
| DownloadGroup.EnsureServesIff | internal/cache/downloaders/downloaders.go:324-367 | whatever downloads there are, the range is served afterwards exactly when it was before, or the first download near its first missing byte, if any, has not passed that byte |
| DownloadGroup.UnderWayKept | internal/cache/downloaders/downloaders.go:282-367 | ensuring one range leaves the downloads for another in place |
| DownloadGroup.KickServes | internal/cache/downloaders/downloaders.go:404-438 | whoever is still queued after a kick has a download under way for all that it misses |
| DownloadGroup.ServedRangePresent | internal/cache/downloaders/downloaders.go:609-621 | once such a download has reached its maximum the whole range, clipped to the file, is present |
| DownloadGroup.WriteCovers | internal/cache/downloaders/downloaders.go:447-510 | a write keeps the bytes the download has passed present, and its source in step with its offset |
| DownloadGroup.DispatchConserves | internal/cache/downloaders/downloaders.go:383-400 | over any history each waiter is answered at most once and is otherwise still queued, in order |
| DownloadGroup.KickConserves | internal/cache/downloaders/downloaders.go:404-438 | the same across a kick, also when it gives up |
| DownloadGroup.KickAnswers | internal/cache/downloaders/downloaders.go:383-438 | nil goes to exactly those whose clipped range is present; the others get the last error if there is no space or there were more than ten errors, and wait on if not |
| DownloadGroup.ErrorsCounted | internal/cache/downloaders/downloaders.go:142-158 | after any sequence of downloads the count is the number of failures since the last that succeeded with bytes, and the error kept is the last of them |
| DownloadGroup.TooManyFailures | internal/cache/downloaders/downloaders.go:404-438 | after more than ten failures in a row a kick sends the last error to everybody who is not ready, and leaves nobody queued |
| DownloadGroup.SkipsCounted | internal/cache/downloaders/downloaders.go:492-503 | after any sequence of writes the download has moved by what they processed, and its count is of the bytes skipped in a row |
| DownloadGroup.WriteEnds | internal/cache/downloaders/downloaders.go:492-510 | a download stops itself exactly when it skipped more than a mebibyte in a row, and its loop ends exactly with a failed or short write or once it was stopped |
| DownloadGroup.Downloaders.DownloadEnds | internal/cache/downloaders/downloaders.go:186-197 | the download is closed, and its outcome goes into the books |
| DownloadGroup.Downloaders.Download | internal/cache/downloaders/downloaders.go:246-266 | a waiter is queued exactly when a download could be ensured, and the books of waiters stay conserved |
| DownloadGroup.Downloaders.DispatchWaiters | internal/cache/downloaders/downloaders.go:383-400 | the in-place filter keeps exactly the waiters that are not ready, in order, and answers the others |
| DownloadGroup.Downloaders.EnsureDownloader | internal/cache/downloaders/downloaders.go:282-367 | the branches of the source: window behind the range, reuse of the first near download, a new one, a refused one |
| DownloadGroup.Downloaders.KickWaiters | internal/cache/downloaders/downloaders.go:404-438 | answers and new state are those of a kick, whose effect on waiters the lemmas above state |
| DownloadGroup.Downloaders.Write | internal/cache/downloaders/downloaders.go:447-510 | a write goes through WriteAtNoOverwrite at the offset; the offset advances by what was processed, and too many skipped bytes in a row, or an idle timeout at the maximum, stop the download |
| CacheItem.Item.Open | internal/cache/item.go:511-615 | up to three tries, more than one only for lack of space; the first fails exactly when OpenFails says so; it counts exactly when it succeeds, nobody else's handle and downloads change, and then the first opener has left the grace period with handle and downloads as they were, or got new ones, and the item has a file, the one it had or a new one, and knows its length |
| CacheItem.OpenFailsIff | internal/cache/item.go:531-615 | an open fails exactly when the directory, the sizing or the creation of the file fails, or the handle of an earlier open is still being closed |
| CacheItem.TruncateFailsIff | internal/cache/item.go:239-300 | sizing fails exactly when the file cannot be opened, or has another length and cannot get the wanted one; else it has it |
| CacheItem.ReadBodyExact | internal/cache/item.go:1344-1361 | what a read wants are exactly its bytes inside the file, and whether they are there; only a closed handle and a negative offset want nothing |
| CacheItem.ReadFailsIff | internal/cache/item.go:1361-1373 | once the bytes are there a read fails exactly when the handle is closed or the file must be sized and cannot be, and else returns what the file holds |
| CacheItem.Item.ReadBytes | internal/cache/item.go:1361-1373 | the same for the method, which follows ReadFinish and notes the access |
| CacheItem.ResetDecides | internal/cache/item.go:997-1038 | Reset removes exactly what nobody uses, goes on exactly with a clean open item that has bytes or is in reset and is in no access, and leaves all others alone |
| CacheItem.ResetOutcome | internal/cache/item.go:1061-1127 | the rest succeeds exactly when no system call fails, and then the item is empty and open on a new file of the remote's length; it stays in reset exactly when the new file found no space |
| CacheItem.Item.Close | internal/cache/item.go:658-684 | one open less, the same accesses; the file and what is present in it stay; the last close without a grace period leaves neither handle nor downloads and knows the file's length, any other leaves all as it was |
| CacheItem.Item.CloseAfterGrace | internal/cache/item.go:690-705 | a grace timer that fires late, after a new open, changes nothing; otherwise handle and downloads go, and the file stays |
| CacheMachine.ProcessedIsWrite | internal/cache/item.go:1419-1464 | the write step of the state machine is what WriteAtNoOverwrite does to the item, also when it lengthens the file |
| CacheCore.OpenCounts | internal/cache/item.go:531-615 | an open counts exactly when it got past its checks, also while its failed creation is still to be undone; it never comes with a grace timer, and leaves others' handle and downloads alone |
| CacheCore.StepKeepsCore | internal/cache/item.go:1132-1154 | every step, whatever fails, keeps the counters equal to the threads inside, the queue equal to the threads that wait, and the reset flag apart from any access |
| CacheCore.ResetExcludesAccess | internal/cache/item.go:1028-1086 | over every run, no more readers wait than are in an access, and while the item is being reset no access is pending and nobody waits |
| CacheCore.NoReaderForgotten | internal/cache/cache.go:517-538 | over every run, an item left in reset is remembered for a retry, and the retry takes no skipped or removed exit |
| CacheCore.ResetNotes | internal/cache/cache.go:561-577 | a reset leaves a note exactly when it fails, and a retry keeps it exactly for lack of space |
| CacheCore.RetryDrops | internal/cache/cache.go:517-538 | where the first part of a retried reset ends already, without a removal, the note goes and the item stays as it was |
| CacheCore.NobodyDisturbsReset | internal/cache/item.go:1086-1127 | once Reset has closed the file no other step changes more of the item than its size, which the removal discards, so the unlocking removals inside Reset are harmless |
| CacheAgreement.TruncateSound | internal/cache/item.go:239-300 | for every failure but an unsized new file, what was good stays good, what is present stays right, and a success leaves file and size at the wanted length |
| CacheAgreement.CheckSound | internal/cache/item.go:848-891 | the check of an open keeps the agreement, and its success leaves the item's size equal to the file's length |
| CacheAgreement.OpenSound | internal/cache/item.go:531-615 | for every failure, an open keeps the agreement, harms no reader, and leaves no wrong byte at or behind the size whoever has the item open relies on |
| CacheAgreement.ReadSound | internal/cache/item.go:1344-1374 | a read whose span is good returns the remote's bytes or fails, also when it has to lengthen the file first |
| CacheAgreement.LookSound | internal/cache/item.go:1193-1199 | what a reader wants beside the range it will wait for is good already |
| CacheAgreement.WriteSound | internal/cache/item.go:1419-1464 | a download's write, short or not, makes the remote's bytes present and spoils no good byte |
| CacheAgreement.CloseSound | internal/cache/item.go:658-684 | each of the four ways a close goes keeps the agreement and harms no reader |
| CacheAgreement.GraceSound | internal/cache/item.go:690-760 | so do the grace timer and the end of either close |
| CacheAgreement.RemoveSound | internal/cache/item.go:936-945 | removing the files keeps the agreement for whoever has them open, if the file was complete; undoing an open always does |
| CacheAgreement.ResetSound | internal/cache/item.go:1061-1127 | the second part of Reset keeps the agreement for every failure but an unsized new file |
| CacheAgreement.StepKeepsSound | internal/cache/item.go:1344-1374 | every step of every thread that is not harmful keeps the agreement |
| CacheAgreement.ReadsAgree | internal/cache/item.go:1316-1374 | over every run without a harmful step, what ReadAt returned with nil or EOF is remote[off .. min(off+len, size)) |
| CacheAgreement.PresentBytesAgree | internal/cache/item.go:1419-1464 | over every such run, every present byte lies in the file and is the remote's, whatever file the open handle leads to |
| CacheHarm.HarmedReadsWrong | internal/cache/item.go:1344-1374 | a handle whose item has a wrong byte at or behind its size reads that byte wrong |
| CacheHarm.OpenInGapReadsWrong | internal/cache/item.go:936-945 | from any item at rest with a byte missing in its file, the run in which an open gets in between the decision to remove it and the removal ends with a wrong read |
| CacheHarm.RemovalAgreesIff | internal/cache/item.go:959-993 | with a handle open, or about to be, at the removal, all reads of all runs that follow without a harmful step agree with the remote if and only if the file was complete |
| CacheHarm.FailedSizingLeavesEmptyFile | internal/cache/item.go:239-300 | a first open that creates the file and cannot size it leaves an empty file behind |
| CacheHarm.LeftOverReadsZero | internal/cache/item.go:1362-1368 | with a file shorter than the remote, any byte behind its end reads as zero |
| CacheHarm.LeftOverAgreesIff | internal/cache/item.go:848-891 | all reads of all runs without a harmful step from a left-behind file agree with the remote if and only if the remote is zero from the file's end on |
| CacheService.OpenKeeps | internal/cache/item.go:531-615 | an open leaves readers their file, its size and their ranges, and with downloads attached what is present |
| CacheService.ResetBeginKeeps | internal/cache/item.go:997-1038 | Reset goes on to destroy only with a handle open and no access pending |
| CacheService.ResetEndKeeps | internal/cache/item.go:1061-1127 | it ends with downloads exactly when it succeeded, and leaves the item in reset only for lack of space |
| CacheService.StepKeepsFull | internal/cache/downloaders/downloaders.go:282-438 | every step of an undisturbed run keeps readers, presence set and downloads in step |
| CacheService.SteadyIsCalm | internal/cache/item.go:1316-1374 | undisturbed runs contain no harmful step, so their reads agree with the remote |
| CacheService.ResumedMeansPresent | internal/cache/item.go:1193-1228 | over every undisturbed run, a reader let through has its whole range present until it has read it |
| CacheService.ReadReturnsExactly | internal/cache/item.go:1344-1374 | over every undisturbed run, the read of a reader let through adds exactly the remote's bytes at its offset to the log, or nothing if and only if the handle is closed |
| CacheService.WaitingIsServed | internal/cache/downloaders/downloaders.go:246-266 | over every undisturbed run, a reader that queues up has a download under way for all that it misses, whenever downloads are attached after its request; they are attached then exactly if they were before or it has to wait |
| CacheService.KickedAreServed | internal/cache/downloaders/downloaders.go:404-438 | over every undisturbed run, so has every reader still queued after a kick |
| CacheService.RunCounts | internal/cache/downloaders/downloaders.go:142-158 | over every undisturbed run with the downloads attached, the error count is what the ends of the downloads make of it |
| CacheService.FailuresFreeWaiters | internal/cache/downloaders/downloaders.go:404-438 | when in such a run more than ten downloads have failed since the last success, the next kick leaves no reader waiting |
| CacheService.SteadySpares | internal/cache/downloaders/downloaders.go:447-510 | in an undisturbed run attached downloads lose nothing they brought, so a served reader gets its range as long as they stay attached and his does not end |
| CacheQueue.LetThroughExactly | internal/cache/downloaders/downloaders.go:383-438 | over every run, a reader is let through by just two steps: a kick, if and only if it finds the reader's clipped range present, and its own request, when it had found the range present itself |
| CacheQueue.StepKeepsTracked | internal/cache/downloaders/downloaders.go:447-510 | every step, whatever fails, keeps the presence set canonical, downloads inside the remote and writing where they read, and requests at or behind its start |
| CacheQueue.QueuedIsServedIff | internal/cache/downloaders/downloaders.go:282-367 | over every run, a reader that queues up while the item has the remote's size is served exactly when it was before, or the download found for its first missing byte, if any, has not passed that byte |
| CacheQueue.ServedGetsItsRange | internal/cache/downloaders/downloaders.go:447-510 | from any state of any run, over every continuation in which the downloads stay attached, the serving one does not end and nothing present is destroyed, it goes on, and once it has reached its maximum the reader's clipped range is present |
| CacheQueue.NoDownloadLost | internal/cache/downloaders/downloaders.go:221-242 | through every step a download that has not ended is still there, attached or detached, and has only moved on |
| CacheStranded.RemovalTakesRange | internal/cache/item.go:936-945 | from any fresh item with a present byte, the run in which a reader let through for that byte finds it absent |
| CacheStranded.RangeKeptIff | internal/cache/item.go:936-945 | in an undisturbed run up to a removal, each reader let through has its range present, and still has behind the removal if and only if the range is empty |
| CacheStranded.ResumedReadsRight | internal/cache/item.go:1344-1374 | such a reader reads the remote's bytes behind the removal, or fails |
| CacheStranded.RemovalStrands | internal/cache/downloaders/downloaders.go:300-367 | from any fresh item with an absent byte, the run that ends, after a kick, with a queued reader and no download, the item taken for empty |
| CacheStranded.RemovalServesIff | internal/cache/item.go:936-945 | behind a removal a queued reader is served if and only if an unclosed download leads over his whole clipped range with its read-ahead from its start on, or that is empty |
| CacheStranded.RemovalStrandsIff | internal/cache/item.go:936-945 | a removal strands a queued reader if and only if his clipped range is not empty, and every running download, attached or not, has passed its start, or the handle is gone |
| CacheStranded.StrandedIff | internal/cache/item.go:1181-1188 | from any state of any run with size 0, a waiting reader can be let through by some continuation that leaves the size 0 if and only if he is not stranded: nothing is missing, or a running download has not passed his first missing byte |
| CacheStranded.LostSizeMayServe | internal/cache/downloaders/downloaders.go:300-350 | a reader neither served nor stranded can become served while the size is lost, when a request extends a download in passing |
| CacheStranded.SizeServesAgain | internal/cache/item.go:411-418 | once a handle asks for the size, the next kick serves whoever is still queued |
| CacheStranded.SecondHandleReadsWrong | internal/read.go:44-56 | the wrong read after a removal in the gap also happens when the reading handle has asked for the size before |
| CacheLife.OpenReadClose | internal/cache/item.go:1316-1374 | from any fresh item there is a run in which a handle opens it, reads any part, gets exactly the remote's bytes there, and closes it, with and without a grace period |
| CacheLife.ResetThenRead | internal/cache/item.go:997-1127 | under an idle handle a reset without failures goes through, and the handle then reads the remote's bytes |
| CacheLife.FailedOpenUndone | internal/cache/item.go:579-585 | an open whose creation fails is undone: the item is as one never opened, without a file |
| CacheLife.EvictionGoes | internal/cache/cache.go:502-514 | an eviction nobody disturbs takes file and entry with it |
| CacheLife.ReopenedStays | internal/cache/cache.go:214-225 | one in whose gap the item is opened leaves the entry |
| CacheLife.NegativeOffset | internal/cache/item.go:1350-1353 | a read from a negative offset ends at once with nothing read and the item untouched |
| HeapOrder.UpStep | internal/cache/writeback/writeback.go:84-97 | one step of sifting up moves the only violation of the heap order to the parent |
| HeapOrder.DownStep | internal/cache/writeback/writeback.go:84-97 | one step of sifting down moves it to the lesser child, and the child is in order with its new parent |
| HeapOrder.RootLeast | internal/cache/writeback/writeback.go:199-204 | no item of a heap comes before its head |
| HeapOrder.LessTotal | internal/cache/writeback/writeback.go:84-92 | of two different keys exactly one comes first, never the one that expires later |
| HeapOrder.OrderDetermined | internal/cache/writeback/writeback.go:84-92 | the same keys, each once, are in order in one way only |
| WriteBackQueue.Queue.Push | internal/cache/writeback/writeback.go:99-104 | the heap gains the item; order and back-pointers hold |
| WriteBackQueue.Queue.Pop | internal/cache/writeback/writeback.go:170-174 | takes off the head, no remaining item comes before it, nothing else leaves, order and back-pointers hold |
| WriteBackQueue.Queue.Remove | internal/cache/writeback/writeback.go:189-194 | takes off just that item through its back-pointer |
| WriteBackQueue.Queue.Update | internal/cache/writeback/writeback.go:119-122 | restores the order after a change of expiry, and off the heap (index -1) leaves the heap unchanged |
| WriteBackQueue.WriteBack.ResetTimer | internal/cache/writeback/writeback.go:220-238 | afterwards the expiry is the head's and its timer runs, or has fired and its run is still to come; without a head there is neither |
| WriteBackQueue.WriteBack.StopTimer | internal/cache/writeback/writeback.go:207-217 | no timer and no expiry are left |
| WriteBackQueue.WriteBack.TimerFires | internal/cache/writeback/writeback.go:220-238 | a timer that fires leaves a run of processItems pending, and no wakeup is lost |
| WriteBackQueue.WriteBack.UploadEnds | internal/cache/writeback/writeback.go:345-385 | the end of an upload keeps all bookkeeping, frees its slot and re-arms the timer; after a failure the item, and nothing else, is back on the heap, due after the doubled delay, after a cancellation after the first one |
| WriteBackQueue.BackoffLaw | internal/cache/writeback/writeback.go:362-367 | after k failures in a row the delay is the first one doubled k times, but never more than five minutes |
| WriteBackQueue.WriteBack.NewExpiry | internal/cache/writeback/writeback.go:128-135 | the write-back delay from now, or now without one |
| WriteBackQueue.WriteBack.CancelUpload | internal/cache/writeback/writeback.go:390-409 | the item is back on the heap however its upload ended, and if the upload succeeded it is no longer in the handle table |
| WriteBackQueue.WriteBack.Add | internal/cache/writeback/writeback.go:258-277 | the item is found or made, its expiry renewed, a running upload of modified data cancelled, no other item touched, and the whole invariant kept |
| WriteBackQueue.WriteBack.RemoveLocked | internal/cache/writeback/writeback.go:284-299 | finds exactly the handles in the table, removes just that one, leaves items with another handle alone, and no wakeup is lost |
| WriteBackQueue.WriteBack.Rename | internal/cache/writeback/writeback.go:314-340 | the item has the new name and a new expiry, waits on the heap, no other handle has that name, and those that had another one stay as they were |
| WriteBackQueue.WriteBack.SetExpiry | internal/cache/writeback/writeback.go:522-541 | sets the expiry, absolute or relative, and leaves the heap unchanged for an item that is not on it |
| WriteBackQueue.WriteBack.PopItem | internal/cache/writeback/writeback.go:170-174 | the head leaves the heap, its flag is cleared, and nothing left comes before it |
| WriteBackQueue.WriteBack.StartNext | internal/cache/writeback/writeback.go:434-451 | starting one more due item keeps the started ones in non-decreasing (expiry, id) order |
| WriteBackQueue.WriteBack.ProcessItems | internal/cache/writeback/writeback.go:426-458 | just the items in `started`, each once, go from the heap to the running uploads; they were due and come in non-decreasing (expiry, id) order; it stops only when 4 uploads run or nothing is due, and then the timer is set for the head unless that is due already |
| Stocks.TotalWithout | internal/cache/cache.go:630-640 | the space used is the same whichever item is counted first |
| Eviction.Cache.Put | internal/cache/cache.go:214-225 | the item has the name, another item that had it is returned, and no other entry changes |
| Eviction.Cache.UpdateUsed | internal/cache/cache.go:630-640 | used becomes the total of the items' present bytes |
| Eviction.Cache.RemoveNotInUse | internal/cache/cache.go:502-514 | used stays the survivors' total, and the entry goes exactly when the item was removed |
| Eviction.Cache.PurgeOld | internal/cache/cache.go:588-599 | exactly the unused items past their age go, none in use, used stays the survivors' total, and the flag falls exactly when the quota holds |
| Eviction.Cache.PurgeOverQuota | internal/cache/cache.go:691-720 | nothing happens within quota; over it the outcome is the least recently used eviction of EvictedLru, nothing in use goes, used is the survivors' total, and the flag falls exactly when the quota holds |
| Eviction.PurgeTakes | internal/cache/cache.go:713-715 | removing one more item keeps the removed ones a prefix in access order, the last with a size removed while over quota |
| Eviction.EvictionDetermined | internal/cache/cache.go:691-720 | when access times differ, that description leaves just one outcome: the shortest prefix that meets the quota, and the empty items |
| CleanerResets.ResetFrees | internal/cache/item.go:997-1127 | a reset, however it ends, frees exactly the bytes the item loses |
| Eviction.Cache.PurgeClean | internal/cache/cache.go:541-585 | nothing happens within quota; over it clean items only are reset, the least recently used first, each while over quota, until it holds or all were tried; failures are noted, used stays the survivors' total, and the flag falls in any case |
| CleanerResets.CleanRemembers | internal/cache/cache.go:561-577 | afterwards every item left in reset is down for a retry that will not skip it |
| CleanerResets.CleanExhausts | internal/cache/cache.go:561-577 | if the quota still does not hold, every item left is dirty, in grace, in access or empty, or its reset failed |
| CleanerResets.CleanSparesUsed | internal/cache/cache.go:561-577 | only items that nobody has open, clean and not in grace, disappear |
| Eviction.Cache.RetryFailedResets | internal/cache/cache.go:517-538 | each noted item is reset again, its note stays exactly when it is still there and lacks space again, and neither used nor the map follows |
| CleanerResets.ResetBlocks | internal/cache/item.go:1028-1127 | a reset leaves an item blocked only for lack of space, and a blocked item is never removed instead |
| CleanerResets.RetryRemembers | internal/cache/cache.go:517-538 | no item left in reset loses its note, and where the note goes the flag is cleared |
| CleanerResets.RetryFrees | internal/cache/cache.go:517-538 | the space used falls by exactly the sum of what the retried resets free, and stays the same if and only if none frees any |
| Eviction.Cache.CleanUp | internal/cache/cache.go:723-753 | a whole pass without a kick: the age purge, then with a quota the eviction, the resets and the retry, each from what the one before left; at the end no unused item is past its age, the quota holds or every item is spent or noted, the out-of-space flag is down, no item left in reset is forgotten, and used exceeds the space used by exactly the sum of what the retried resets freed |
| Eviction.PassOutcome | internal/cache/cache.go:723-753 | whatever passes through these stages ends like that |
| KickProtocol.StepKeepsInv | internal/cache/cache.go:474-498 | threads about to send, kicks in the channel and a kicked pass add up to one exactly while the kick flag is set, through every step |
| KickProtocol.SendNeverBlocks | internal/cache/cache.go:480-488 | over every run, the send under both locks finds room in the channel |
| KickProtocol.WaitersWillBeFreed | internal/cache/cache.go:491-498 | over every run, threads wait for space only while a kick is pending or a kicked pass is yet to clear the flag |
| KickProtocol.PassEndsFreed | internal/cache/cache.go:723-753 | over every run, a kicked pass ends with the flag down, and any pass leaves it up only for a pending kick |
| KickProtocol.PassLeavesFlag | internal/cache/cache.go:541-599 | when any pass ends the flag is up if and only if a kick was sent during it after its last clearing point |
| KickProtocol.KickedAndFreed | internal/cache/cache.go:474-498 | with or without a quota and whatever the purges free, there is the run in which a thread kicks the cleaner, is let go by its pass, and everything is as before |
| KickProtocol.TimedPassMayEndOutOfSpace | internal/cache/cache.go:723-753 | a pass that was not kicked can end with the flag up |

## Left out

- SequentialReader.Sequential.Execute: seeks relative to the current position are left out, because their target is wrong right after a seek (TargetExact says exactly when).
- SequentialReader.Sequential.OpenRange: the shortcut for bodies that can seek themselves, and a failing close of the old body.
- SequentialReader.Sequential.RangeSeek: remotes of unknown size.
- ParallelReader.Parallel.Read: errors of a stream, also of closing one; the source shadows the error variable (internal/chunkedreader/parallel.go:241) and does not return them.
- ParallelReader.Parallel.PopStream: the error of closing a stream.
- ParallelReader.Parallel.Close: the error of closing a stream.
- RwBuffer.RW.ReadFrom: a source reader that fails; WaitWrite is modelled as background progress, with no claim about a cancelled context.
- CacheAgreement.ReadsAgree: for runs without a harmful step; RemovalAgreesIff, for a handle that is idle or about to return from its open, and LeftOverAgreesIff give the exact conditions. A removal is called harmful also when the only handle is closing, or is in a read that will restore the size, where nothing goes wrong.
- CacheAgreement.PresentBytesAgree: for the same runs.
- CacheHarm.RemovalAgreesIff: says nothing of a removal whose only handles are closing or in the middle of a read.
- CacheService.ResumedMeansPresent: for runs in which no open gets in between the decision for a removal and the removal, or beside a failed open that is being undone, and no new file stays unsized; CacheQueue.LetThroughExactly holds over all runs, and CacheStranded.RangeKeptIff says what a removal leaves.
- CacheService.WaitingIsServed: for the same runs; CacheQueue.QueuedIsServedIff and CacheStranded.RemovalServesIff have the exact conditions for the others. A request is one step, while in the source downloads may write in its middle, which only adds present bytes.
- CacheService.KickedAreServed: the same.
- CacheService.StepKeepsFull: for the steps of such runs; CacheCore.StepKeepsCore and CacheQueue.StepKeepsTracked are about all.
- CacheService.SteadySpares: for the same runs; CacheQueue.ServedGetsItsRange is about all.
- CacheStranded.StrandedIff: that a reader who is not stranded can be let through rests on a write call being as long as it likes.
- CacheMachine.ProcessedIsWrite: open's window around Cache.put, and that in which a re-open stops the downloads of a vanished file, are folded into one step; a cleaner that holds the cache's lock lets the entry come back only after its removal.
- CacheItem.Item.Open: nothing comes between its parts; in the runs of the state machine it does.
- CacheItem.Item.Close: the same, and the upload of a dirty item is not part of it.
- CacheItem.Item.CloseAfterGrace: the same.
- CacheCore.StepKeepsCore: one item object stays in the map under its name; fingerprints, metadata files, `load` and `Cache.Remove` of an open item are not part of the runs.
- DownloadGroup.Downloaders.Write: a download is a value in the list `dls`, not an object, so aliasing between the list and the running copy loop is not captured; its sleep at the maximum and its idle timeout are one flag.
- WriteBackQueue.WriteBack.UploadEnds: the count of tries, which is only reported.
- WriteBackQueue.WriteBack.CancelUpload: cancelling and waiting for the upload to end are one step; the helper `cancelUpload`, which does not re-arm the timer, is left out.
- WriteBackQueue.WriteBack.Add: the wait for a cancelled upload is part of the step.
- WriteBackQueue.WriteBack.RemoveLocked: the wait for a cancelled upload is part of the step.
- WriteBackQueue.WriteBack.Rename: the waits for cancelled uploads are part of the step.
- WriteBackQueue.WriteBack.ProcessItems: a cancelled context, with which the queue shuts down.
- WriteBackQueue.Queue.Pop: the sift-down loop of the standard heap is written as a recursive method.
- Eviction.Cache.PurgeOld: the items do not change by themselves while the purge runs.
- Eviction.Cache.PurgeOverQuota: the same; sorting is any order by access time.
- Eviction.Cache.PurgeClean: the same, so a reset is one step here; what other threads do while Reset stops the downloads or a removal gives up its lock is in the runs of `CacheMachine`.
- Eviction.Cache.RetryFailedResets: the same.
- Eviction.Cache.CleanUp: the same, and no kick comes in between; with kicks the flag is the subject of `KickProtocol`.
- KickProtocol.TimedPassMayEndOutOfSpace: shown for a cleaner without a quota, where one purge is enough.
- `WriteAt`, growing `Truncate`, `rename`, `Sync` and `_store`: agreement with the remote does not hold across local writes.
- HTTP serving, metrics, URL hashing, configuration, directory nodes and handles: plumbing with easy claims.
- The file system, JSON metadata, statfs and sparse files: an abstract byte store with parameters for the failures.
- Wall-clock time, goroutine scheduling and condition variables as such: a clock that does not run back, and steps taken under the locks.
