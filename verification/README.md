# CAPIO, verified in Dafny

CAPIO puts a client/server file service behind the POSIX calls of unmodified programs. A client keeps a
read cache and a write cache over ring queues in shared memory; a server keeps each file as a buffer and
a set of *sectors*, the ranges that hold data; readers may follow a file while it is written; and servers
fetch the files of other servers. This project models that core and proves what it promises.

| file | subject |
|---|---|
| `Bytes.dfy`, `Cells.dfy` | bytes, plain byte-sequence files (the specification of `read` and `write`), bytes by offset |
| `PlainFiles.dfy` | descriptors, shared offsets and plain files: what an application without caches would see |
| `CacheViews.dfy`, `Caches.dfy`, `CachedFiles.dfy` | the two client caches, the queues and the server, and their refinement of plain files |
| `Ring.dfy` | the ring queue: any number of producers and consumers, step by step |
| `Transport.dfy` | payloads cut into queue elements and put together again |
| `WriteSlots.dfy` | the client that reserves and fills write slots while the server consumes them |
| `Sectors.dfy` | the sector set: insertion, queries, histories |
| `WaitCommit.dfy` | the locks and condition variables of a file |
| `Storage.dfy` | buffers that grow, writes and server-side copies |
| `Streaming.dfy` | reads of a file that is being written |
| `Replica.dfy` | reads of a file whose home is another server |
| `CopyRange.dfy` | `copy_file_range` at the client |
| `Frames.dfy`, `Handoff.dfy` | the MTCL frames between servers, and the bytes that go with a reply |
| `Descriptors.dfy` | the descriptor tables of the client |
| `Dirents.dfy` | directory records and `getdents` |

Protocols are state machines whose events are the steps of single threads; a theorem about them is
about the final state of every run of every interleaving. Objects that the source updates in place are
classes whose methods are proved against functions on values.

Some properties that one would expect do not hold of the code. For each of these the project keeps
the code as it is, gives an input that shows the failure, and proves exactly when the property holds:

- `insertSector` absorbs a sector that starts one byte past the merged end: `Sectors.InsertExactIff`,
  `Sectors.InsertOrderMatters`; so the order of insertions matters iff they leave a hole of one byte:
  `Sectors.OrderIndependentIff`; and a reader may get a byte that nobody wrote: `Streaming.PublishIsWrittenIff`, `Streaming.GapByteIsServed`.
- A read longer than a cache line that finds prefetched bytes asks the queue for them again:
  `CachedFiles.Session.CachedRead`, `CachedFiles.Session.Run`, `CachedFiles.LongReadSession`.
- `seekData` stays at the end of a run: `Sectors.SeekDataIsLeastDataIff`, `Sectors.SeekDataAtEnd`.
- `waitForData` looks at the end of the last sector only: `Streaming.WokenReadIsWholeIff`,
  `Streaming.HoleIsServedAsEndOfFile`.
- A read that waited is answered before its offset is moved: `Streaming.LateCallIff`, `Streaming.LateMoveIff`,
  `Streaming.SeekIsLost`, `Streaming.ByteIsReadTwice`.
- A reply of a home server can make a replica claim a byte it never got: `Replica.ReplyAgreesIff`,
  `Replica.PrefetchLimitBreaksAgreement`, `Replica.ReadAboveEndBreaksAgreement`.
- A file that may not be read before its commit is sent to another server as soon as it has the bytes asked
  for: `Replica.OnlyTheHomeWaits`, `Replica.HomeServesWhenReady`, `Replica.UnfirableIsServedEarly`.
- The reply of a home is answered before the offset is moved, and the next call may come in between: its reply
  is then stored where it does not belong, or a byte is read twice: `Replica.ReplyAgreesIff`,
  `Replica.LateCallIff`, `Replica.LateMoveMisplacesReply`, `Replica.ByteIsReadTwice`.
- A copy within one file past its old end reads what it has just written: `CopyRange.StopsAtOldEndIff`,
  `CopyRange.CopyPastOldEnd`.
- `dup` onto a used descriptor, a second add of a descriptor and a rename onto a known path may leave the
  descriptor tables inconsistent: `Descriptors.Tables.DupFd`, `Descriptors.Tables.AddFd` and
  `Descriptors.Tables.RenamePath`, with `Descriptors.DuplicatedOntoUsed`, `Descriptors.AddedTwice` and
  `Descriptors.RenamedOntoKnown`.

## Model

| member | source | states |
|---|---|---|
| Bytes.PlainWriteTwice | capio/posix/utils/cache.hpp:128-146 | two writes, the second where the first ended, are one write of both payloads: why pending writes may be sent late |
| Bytes.PlainReadRest | capio/posix/utils/cache.hpp:68-111 | bytes held aside followed by a read of the rest are one read, also at the end of the file |
| Sectors.InsertOrdered | capio/server/src/capio_file.cpp:181-211 | after any insertion each sector ends strictly before the next starts, and non-empty sectors stay non-empty |
| Sectors.InsertCovers | capio/server/src/capio_file.cpp:181-211 | a byte is covered after an insertion iff it was, or is in the new range, or is the one byte before a sector that starts one past the merged end |
| Sectors.MergedEndIsMax | capio/server/src/capio_file.cpp:190-196 | the merged end is the largest of the new end and the ends of the sectors that reach the new start from the left |
| Sectors.InsertExactIff | capio/server/src/capio_file.cpp:198-206 | an insertion covers exactly the old bytes and the new range iff no sector starts one past the merged end |
| Sectors.InsertOrderMatters | capio/server/src/capio_file.cpp:181-211 | two ranges inserted in the two orders cover different bytes |
| Sectors.InsertFileSize | capio/server/src/capio_file.cpp:143-150 | an insertion makes the file size the larger of the old size and the new end |
| Sectors.InsertGapFree | capio/server/src/capio_file.cpp:181-211 | a file without holes written at or before its end stays one sector from zero |
| Sectors.GetSectorEndIsRunEnd | capio/server/src/capio_file.cpp:152-169 | `getSectorEnd` is the end of the maximal covered run at the offset, the offset itself at the end of a run, and not found exactly in a hole |
| Sectors.SeekHoleIsLeastHole | capio/server/src/capio_file.cpp:255-280 | `seekHole` is the least uncovered offset at or after the given one up to the file size, and -1 past it |
| Sectors.SeekDataIsLeastDataIff | capio/server/src/capio_file.cpp:228-253 | `seekData` is the least covered offset at or after the given one iff the offset is not the end of a run (nor zero in an empty file) |
| Sectors.SeekDataAtEnd | capio/server/src/capio_file.cpp:242-244 | a file of one byte, at offset one: the answer is the offset, where there is no data |
| Sectors.HistoryBounds | capio/server/src/capio_file.cpp:181-211 | after any history of insertions the sectors are ordered and apart, each starts where some range started and ends where some range ended |
| Sectors.HistoryCovers | capio/server/src/capio_file.cpp:181-211 | after any history every byte inserted is covered, and any other covered byte is a hole of one byte between two ranges inserted |
| Sectors.HistoryTouches | capio/server/src/capio_file.cpp:181-211 | after any history the bytes of sectors and their ends are exactly those of the ranges inserted |
| Sectors.HistoryOrderIndependent | capio/server/src/capio_file.cpp:181-211 | two histories that cover and touch the same bytes, in any order and however split, empty ranges included, give the same sectors if these bytes leave no hole of one byte |
| Sectors.NonEmptyOrderIndependent | capio/server/src/capio_file.cpp:181-211 | for ranges of a byte at least, covering the same bytes without such a hole is enough |
| Sectors.OrderIndependentIff | capio/server/src/capio_file.cpp:181-211 | every order of the same ranges gives the same sectors iff the ranges leave no hole of one byte |
| Sectors.GapBreaksOrder | capio/server/src/capio_file.cpp:198-206 | of any ranges with a hole of one byte, those below it first never cover the hole, those above it first do |
| WaitCommit.StepKeepsInv | capio/server/src/capio_file.cpp:41-72 | each step of each thread keeps mutual exclusion, the sector order, and the promise that a changed condition has a notifier |
| WaitCommit.RunKeepsInv | capio/server/src/capio_file.cpp:41-72 | the invariant holds after every run, with spurious wake-ups |
| WaitCommit.NoLostWakeUp | capio/server/src/capio_file.cpp:41-72 | in every state of every run, a sleeping waiter whose condition holds has a notifier that changed the state and has not notified yet |
| WaitCommit.ReturnsOnlyWhenReady | capio/server/src/capio_file.cpp:41-47 | a call that waits returns only in a state in which its condition holds |
| WaitCommit.StuckMeansServed | capio/server/src/capio_file.cpp:181-216 | when no thread can step, each has returned or sleeps with its condition false |
| WaitCommit.CallsTakeEffectInOrder | capio/server/src/capio_file.cpp:49-216 | insertions and commits are atomic: after every run the sectors and the flag are what the calls past their change give one after the other, in some order and each once |
| WaitCommit.InsertIsVisible | capio/server/src/capio_file.cpp:181-211 | in every state of every run, once an insertion is past its change every byte of it is covered and the size reaches its end |
| WaitCommit.CommitIsVisible | capio/server/src/capio_file.cpp:49-59 | in every state of every run without a call that takes the commit back, the file is committed iff it was from the start or a call that commits it is past its change |
| WaitCommit.StuckAfterCommit | capio/server/src/capio_file.cpp:41-72 | when no thread can step, a file that some call commits and none opens again is committed, and every call has returned |
| WaitCommit.StuckAfterData | capio/server/src/capio_file.cpp:41-47 | when no thread can step, a reader whose last byte some call stores has returned, committed or not |
| WaitCommit.StuckMeansResting | capio/server/src/capio_file.cpp:116-129 | the two locks never deadlock, among threads that wait, insert, set the flag, query, grow the buffer or use it under `_mutex` |
| WaitCommit.RunsAreBounded | capio/server/src/capio_file.cpp:41-72 | the length of a run is bounded by the threads it starts with and its spurious wake-ups |
| Ring.StepKeepsInv | capio/common/queue.hpp:30-50 | each step of `_read` and `_write` keeps the accounts of the semaphores, the two offsets and the contents of the ring |
| Ring.RingSafety | capio/common/queue.hpp:30-50 | in every state of every run, semaphores and threads between a wait and a post sum to the capacity, and what was read followed by what the ring holds is what was written |
| Ring.ReadTakesOldest | capio/common/queue.hpp:30-39 | a read takes the oldest element written and not yet taken |
| Ring.ElementsAreDelivered | capio/common/queue.hpp:30-50 | over every run of any number of producers and consumers, each element written is the next piece of one producer, each element taken is the oldest left and goes to one consumer, and what a consumer has got is the front of each element it took, in order |
| Ring.NoOverwrite | capio/common/queue.hpp:41-50 | no step of a producer changes an unread element |
| Ring.StuckMeansUnmatched | capio/common/queue.hpp:30-50 | when no thread can step, only producers wait on a full ring or only consumers on an empty one |
| Ring.RunsAreBounded | capio/common/queue.hpp:30-50 | a run is exactly as long as the steps it takes off its calls, and never longer than the steps they need |
| Transport.PiecesRoundTrip | capio/common/queue.hpp:138-150 | the pieces of a payload put together are the payload, each of the length the reader asks for |
| Transport.LengthsCount | capio/common/queue.hpp:104-117 | a payload takes its size over the element size, rounded up, of elements |
| Transport.WriteLoop | capio/common/queue.hpp:138-150 | the loop of `write` sends exactly the pieces of the payload |
| Transport.ReadLoop | capio/common/queue.hpp:104-117 | the loop of `read` asks for exactly the lengths of the pieces |
| Transport.ChunkedTransport | capio/common/queue.hpp:104-150 | a writer and a reader of any payloads that cannot go on have delivered every payload unchanged and left the queue empty, whatever the interleaving, also for payloads longer than the ring |
| WriteSlots.StepKeepsInv | capio/posix/utils/cache.hpp:128-189 | each step of the client or of the server keeps every queue element matched with the request whose bytes it holds |
| WriteSlots.SlotAccounting | capio/posix/utils/cache.hpp:128-189 | in every state of every run the unconsumed elements are those of the sent requests, rounded up per request, plus the reserved one, and neither queue holds more than its capacity; what is stored is a prefix of what was sent; what was sent and is pending is what was written |
| WriteSlots.OutstandingCount | capio/server/include/handlers/write.hpp:19-26 | the requests not yet taken have as many elements as their sizes say |
| WriteSlots.BlockedClientIsServed | capio/posix/utils/cache.hpp:128-146 | a client that waits for a free slot has its oldest element filled, for a request already sent, and the server can step |
| WriteSlots.StuckMeansStored | capio/server/include/handlers/write.hpp:15-29 | when neither side can step, every call has returned and every request sent is stored |
| WriteSlots.CallsAreCarriedOut | capio/posix/utils/cache.hpp:128-189 | in every state of every run the bytes issued, those the call under way carries and those of the calls to come are the bytes the caller wrote; a flush leaves no pending byte, a line is sent only when it is full or has no room, and only a write longer than a line is sent by itself |
| WriteSlots.StuckMeansWritten | capio/posix/utils/cache.hpp:148-189 | when neither side can step, the server has stored all the bytes the caller wrote but those still in the line, and all of them if the caller flushed last |
| WriteSlots.RunsAreBounded | capio/posix/utils/cache.hpp:128-189 | every run of the write protocol ends |
| PlainFiles.DupKeepsSharing | capio/posix/utils/filesystem.hpp:214-220 | a duplicate shares an offset only with descriptors of the same file |
| PlainFiles.NextKeepsFiles | capio/posix/handlers/write.hpp:10-25 | no call but a write changes a file, and a write changes only its file and the range it writes |
| PlainFiles.NextKeepsDescriptors | capio/posix/utils/filesystem.hpp:214-220 | a descriptor keeps its file, and its offset moves, past the bytes read or written or to the position asked for, only with one it shares it with |
| PlainFiles.WriteThenRead | capio/posix/utils/data.hpp:27-45 | what is written is read back, through any descriptor of the file |
| CacheViews.FlushReadAgrees | capio/posix/utils/cache.hpp:33-42 | dropping the prefetched bytes and seeking the server back shows the application nothing |
| CacheViews.FlushWriteAgrees | capio/posix/utils/cache.hpp:148-156 | sending the pending bytes shows the application nothing |
| CacheViews.UnreadIsPlainRead | capio/posix/utils/cache.hpp:71-74 | a read served from the cache is the read of a plain file |
| CacheViews.PrefetchAgrees | capio/posix/utils/cache.hpp:88-111 | fetching a line leaves the server offset ahead of the client by exactly the unread bytes |
| CacheViews.AddPendingAgrees | capio/posix/utils/cache.hpp:128-146 | bytes added to the pending line are a plain write |
| CacheViews.DirectWriteAgrees | capio/posix/utils/cache.hpp:173-182 | a write longer than a line sent directly is a plain write |
| Caches.Queue.Fetch | capio/common/queue.hpp:88-101 | fetching takes the oldest element, which stays in its slot, and frees the slot |
| Caches.Queue.Reserve | capio/common/queue.hpp:124-136 | reserving makes the slot past the last element an element, whatever it holds |
| Caches.Queue.Exchange | capio/common/queue.hpp:104-150 | a reader that asks for at least the bytes sent gets them, in front of what it got, iff as many elements are sent as it waits for |
| Caches.Server.HandleRead | capio/server/include/handlers/read.hpp:72-103 | the reply is the plain read at the server offset, which moves past it |
| Caches.Server.HandleWrite | capio/server/include/handlers/write.hpp:15-29 | the bytes are a plain write at the server offset, which moves past them, and the file stays one sector |
| Caches.Server.HandleSeek | capio/server/src/storage_manager.cpp:148-153 | only the offset of the descriptor changes |
| Caches.Server.HandleDup | capio/server/src/storage_manager.cpp:205-213 | the new descriptor names the same file and shares the offset |
| Caches.ReadCache.Copy | capio/posix/utils/cache.hpp:17-31 | the unread bytes lose the prefix copied |
| Caches.ReadCache.Flush | capio/posix/utils/cache.hpp:33-42 | the unread bytes are given back to the server offset, and none is left |
| Caches.WriteCache.Flush | capio/posix/utils/cache.hpp:148-156 | the pending bytes are written at the server, and none is left |
| Caches.WriteCache.Fill | capio/posix/utils/cache.hpp:128-136 | the pending bytes in the slot grow by those written, and the slot is reserved once |
| CachedFiles.LongReadMismatch | capio/posix/utils/cache.hpp:82-87 | a read longer than a line of bytes that all exist, with any prefetched bytes, never behaves as a plain read |
| CachedFiles.LongReadBreaks | capio/posix/utils/cache.hpp:82-87 | open, write nine bytes, seek back, read one, read eight, with lines of four bytes: exactly the last read is not faithful |
| CachedFiles.LongReadSession | capio/posix/utils/cache.hpp:49-117 | the same through a new session and its caches: it stops at the fifth call |
| CachedFiles.ShortReadsAreFaithful | capio/posix/utils/cache.hpp:88-111 | a session whose reads are no longer than a line never stops |
| CachedFiles.DirectFaithful | capio/posix/utils/cache.hpp:82-87 | asking the queue for the prefetched bytes again is harmless iff there are none, or they need no further element and fit in the buffer of the caller |
| CachedFiles.ReadEffectRefines | capio/posix/utils/cache.hpp:49-117 | a cached read returns and does what a plain read does iff the condition on the direct path holds |
| CachedFiles.WriteRefines | capio/posix/utils/cache.hpp:158-189 | a cached write is a plain write |
| CachedFiles.Session.CachedRead | capio/posix/utils/data.hpp:27-30 | the outcome is that of a plain read iff the condition on the direct path holds, and then so are all files and offsets, and how far the cache is ahead is a function of what the application sees |
| CachedFiles.Session.CachedWrite | capio/posix/utils/data.hpp:40-45 | files and offsets, as the application sees them, are those after a plain write, and how far the server is behind is a function of the lengths written |
| CachedFiles.Session.SetFdOffset | capio/posix/utils/data.hpp:55-60 | only the offset the application sees changes, to the position asked for |
| CachedFiles.Session.Lseek | capio/posix/handlers/lseek.hpp:10-37 | the offset becomes the target, or the call fails on a negative target and changes nothing the application sees |
| CachedFiles.Session.DupFd | capio/posix/handlers/dup.hpp:9-28 | a duplicate made while the caches hold bytes sees the same file and the same offset |
| CachedFiles.Session.CloseFd | capio/posix/handlers/close.hpp:8-21 | closing loses no pending byte |
| CachedFiles.Session.Run | capio/posix/utils/cache.hpp:33-189 | over any sequence of opens, reads, writes, seeks, dups and closes every result and the final files are those of plain files, up to exactly the first read that is not faithful, which the plain state, the line and the bytes the cache is ahead determine; after them server offset and pending bytes balance client offset and unread bytes |
| Storage.FileBuffer.Allocate | capio/server/include/storage/file_buffer.hpp:64-82 | a buffer is allocated once, of the size the quota gives |
| Storage.FileBuffer.Grow | capio/server/include/storage/file_buffer.hpp:97-103 | the new buffer is as large as the larger of what is asked for and what the quota grants, and keeps every byte of a sector |
| Storage.FileBuffer.CopySectors | capio/server/include/storage/interfaces/heap.hpp:27-37 | the loop over the sectors copies every byte in a sector to its own place |
| Storage.FileBuffer.Commit | capio/server/include/storage/interfaces/mapped.hpp:46-56 | a mapped buffer is cut to the committed size once, and cannot grow any more |
| Storage.CapioFile.InsertSector | capio/server/src/capio_file.cpp:181-211 | the imperative search, merge and erase compute `Sectors.Insert` |
| Storage.CapioFile.ExpandBuffer | capio/server/src/capio_file.cpp:116-129 | growing keeps all that is known of the file |
| Storage.CapioFile.WriteAt | capio/server/include/handlers/write.hpp:15-29 | the file holds what it held with the bytes written over it, every sector within the buffer; it fails iff the file is mapped, was committed and would have to grow |
| Storage.CapioFile.CopyFrom | capio/server/src/capio_file.cpp:302-314 | the range of the output becomes the old range of the input, also within one buffer |
| Storage.CapioFile.CopyRange | capio/server/include/utils/common.hpp:126-148 | all the bytes in a row that the input has at the offset, up to the count, are copied, the rest of the output and a different input are unchanged; it fails iff the output is mapped, was committed and would have to grow |
| Storage.KnownCopyAt | capio/server/src/capio_file.cpp:302-314 | what is known of each byte of the output after a copy |
| Storage.HoldsCopied | capio/server/include/utils/common.hpp:126-148 | a copy through buffers holds what the copy of the known bytes promises |
| Storage.Run | capio/server/include/storage/file_buffer.hpp:97-103 | over any run of writes and copies between two files, whatever the quota returns of what each asks for, the files hold what the operations promise, every sector end is within its buffer and no buffer shrinks |
| Cells.PutAt | capio/server/src/capio_file.cpp:290-300 | bytes stored at an offset are there, and every other byte is as it was |
| Streaming.StepKeepsInv | capio/server/include/handlers/read.hpp:20-104 | each step of the reader or of any other thread, whatever it writes, keeps every answer within sectors and every read waiting for what it must |
| Streaming.FileIsItsWriters | capio/server/include/handlers/write.hpp:15-29 | over every run the sectors and the bytes are what the writers insert and store, in order, the file is committed iff it was or a commit is in the run, and no read changes it |
| Streaming.ServableReadIsAnswered | capio/server/include/handlers/read.hpp:46-104 | over every run, a read of a file that is committed, or by its producer, or of one that may be read early and reaches its end, is answered, or can go on with one of at most five steps of its own left |
| Streaming.AnsweredAfterCommit | capio/server/include/handlers/read.hpp:46-104 | over every run from the commit on, whatever is written then, a read under way is answered within four steps of its own |
| Streaming.StreamingSafety | capio/server/include/handlers/read.hpp:46-104 | over every run, whatever the writes, every byte answered is in a sector, a file that may be read early is answered once it reaches the end of the read or is committed, and any other only after the commit, except to its producer |
| Streaming.LookupIsLongestRun | capio/server/include/handlers/read.hpp:20-104 | whatever the sectors and whoever reads, a read that has found its answer has found the bytes from its offset up to the first missing one or to the count |
| Streaming.AnswersAreLongestRuns | capio/server/include/handlers/read.hpp:20-104 | over every run each answer is as long as the bytes that were there in a row, up to the count, at one moment at which its read was under way |
| Streaming.AvailableBytesAreAnswered | capio/server/include/handlers/read.hpp:20-104 | over every run, bytes that are there in a row while a read is under way and has not found its answer are in the answer |
| Streaming.ReadWaitsIff | capio/server/include/handlers/read.hpp:57-95 | a read waits for the commit iff the file is open, may not be read early and is not its own, and for data iff the file is open and not all of the read is there |
| Streaming.OnlyWrittenBytes | capio/server/include/handlers/read.hpp:46-104 | over every run in which no sector claims a gap, every byte answered was stored by a writer |
| Streaming.PublishIsWrittenIff | capio/server/src/capio_file.cpp:198-206 | a sector makes only stored bytes readable iff it claims no gap, or one that was stored |
| Streaming.GapByteIsServed | capio/server/include/handlers/read.hpp:97-103 | a run in which a reader gets a byte that nobody wrote |
| Streaming.SequentialStreaming | capio/server/include/handlers/read.hpp:46-104 | on a file written without holes every answer to a reader that is not its producer is whole, or reaches the end of the committed file |
| Streaming.NoEarlyEndOfFile | capio/server/include/handlers/read.hpp:80-95 | no read of a byte or more is answered with the end of file before the commit |
| Streaming.OffsetAgreement | capio/server/include/handlers/read.hpp:97-103 | over every run in which a detached thread moves the offset before the next call, every read begins where the client is |
| Streaming.InlineOffsetAgreement | capio/server/include/handlers/read.hpp:97-103 | over every run in which no read has to wait, the offset of the server is always that of the client |
| Streaming.DrainedAgreesIff | capio/server/include/handlers/read.hpp:39-41 | once the detached threads have all moved the offset, in whatever order, it is that of the client iff each of them moves it there |
| Streaming.LateMoveIff | capio/server/include/handlers/read.hpp:40-41 | a seek made while any number of moves are outstanding holds, in whatever order they come, iff each is to its target |
| Streaming.LateCallIff | capio/server/include/handlers/read.hpp:40-53 | a call between the reply and the move of a read that waited is honoured iff it is a read and the one before got nothing, or a seek to where the one before ended |
| Streaming.SeekIsLost | capio/server/include/handlers/read.hpp:40-41 | a run in which such a seek is lost |
| Streaming.ByteIsReadTwice | capio/server/include/handlers/read.hpp:40-53 | a run without a seek in which two reads of one byte get the same byte |
| Streaming.StreamedBytesAreFinal | capio/server/include/handlers/read.hpp:20-104 | if moreover no byte is overwritten with another, every answer ever given is bytes of the finished file |
| Streaming.StreamedInOrder | capio/server/include/handlers/read.hpp:20-104 | and a client that does not seek, with every move before the next call, is given what was stored from its position on, each byte once and in order |
| Streaming.WokenReadIsWholeIff | capio/server/include/handlers/read.hpp:20-43 | a read that waited is served whole iff its range has no hole |
| Streaming.HoleIsServedAsEndOfFile | capio/server/src/capio_file.cpp:41-47 | a run in which a hole of an open file is answered as the end of the file |
| Replica.StepKeepsInv | capio/server/include/remote/handlers/read.hpp:14-116 | each sample at the home, each step at the replica and each late move of the offset keeps replica bytes and answers equal to home bytes, as long as no sector claims a gap and replies are stored at the offset their requests carried |
| Replica.ReplicaAgreement | capio/server/include/remote/handlers/read.hpp:14-116 | over every run in which no reply claims a gap and each is stored at the offset its request carried, every byte in a replica sector or in an answer is the home byte |
| Replica.FlagAgreement | capio/server/include/remote/handlers/read.hpp:42-44 | over every run of a home not written after its commit, whatever the calls and moves, a replica marked committed has the final size |
| Replica.HomeIsItsWriters | capio/server/include/handlers/write.hpp:15-29 | over every run the home file is what it was and what its writers append, and is committed iff it was or a commit is in the run |
| Replica.RemoteReadsAreExact | capio/server/include/remote/handlers/read.hpp:14-116 | for reads that start within a home file not written after its commit, over every run in which replies are stored and local reads served at the offset they were meant for, and with a prefetch limit claim no gap: all of this, and an answer is short only at the end of the committed file, or when it is as long as the limit |
| Replica.PromptReadsAreExact | capio/server/include/remote/handlers/read.hpp:59-60 | the same over every run in which the offset is moved before the next call, and then every answer is of the bytes at the position of the client |
| Replica.SequentialReadsAreExact | capio/server/include/remote/handlers/read.hpp:14-116 | with any prefetch limit, over every run without seeks in which the offset is moved before the next call, the client is given the home file from its start, each byte once and in order |
| Replica.RepliesAreLimited | capio/server/include/remote/requests.hpp:23-27 | over every run, whatever the calls, a reply carries no more than the prefetch limit |
| Replica.CommitIsLearned | capio/server/include/remote/handlers/read.hpp:39-44 | over every run of a home not written after its commit, a read that asked the committed home leaves the replica committed for good |
| Replica.HomeIsAskedIff | capio/server/include/handlers/read.hpp:106-130 | the home is asked iff a byte of the read is missing at the replica, which does not know that the file ends there |
| Replica.OnlyTheHomeWaits | capio/server/include/remote/handlers/read.hpp:64-90 | a read can always go on but at a home that has neither all its bytes nor the commit, whether or not the file may be read early |
| Replica.HomeServesWhenReady | capio/server/include/remote/handlers/read.hpp:64-90 | over every run, the home sends nothing before its commit but to a read that it has all the bytes for |
| Replica.UnfirableIsServedEarly | capio/server/include/remote/handlers/read.hpp:82-89 | a run in which a file that may not be read early is answered before its commit |
| Replica.ServableReadIsAnswered | capio/server/include/remote/handlers/read.hpp:64-90 | over every run, a read whose home is committed or has its bytes is answered, or can go on with one of at most fourteen steps of its own left |
| Replica.ReplyAgreesIff | capio/server/include/remote/handlers/read.hpp:101-115 | storing a reply leaves the replica right iff its bytes are those of the home at the offset where they are stored, which holds at the offset its request carried, and its sector claims no gap |
| Replica.LateCallIff | capio/server/include/remote/handlers/read.hpp:59-60 | a call between the answer and the move of a fetched read is honoured iff it is a read and the answer was empty, or a seek to where the answer ended |
| Replica.LateMoveMisplacesReply | capio/server/include/remote/handlers/read.hpp:101-115 | a run without a limit, a seek or a read past the file in which a late move makes a reply land in the wrong place |
| Replica.ByteIsReadTwice | capio/server/include/remote/handlers/read.hpp:59-60 | a run in which a read before the move gets the same byte again |
| Replica.FullHasNoGap | capio/server/include/remote/requests.hpp:23-27 | without a limit, a reply that reaches the end of the home file claims no gap |
| Replica.PrefetchLimitBreaksAgreement | capio/server/include/remote/requests.hpp:23-27 | a run with a prefetch limit after which the replica claims a byte it never got |
| Replica.ReadAboveEndBreaksAgreement | capio/server/include/remote/handlers/read.hpp:39-44 | a run without one, with a read above the end of the home file, after which it does |
| CopyRange.WriteAtRange | capio/posix/handlers/copy_file_range.hpp:125-144 | a write changes its range and no other byte of the file |
| CopyRange.End.constructor | capio/posix/handlers/copy_file_range.hpp:27-70 | a copy starts at the offset of the caller, or else of the descriptor |
| CopyRange.End.Unread | capio/posix/handlers/copy_file_range.hpp:183-189 | the next read happens that many bytes before |
| CopyRange.End.Finish | capio/posix/handlers/copy_file_range.hpp:200-211 | the offset of the caller moves by the bytes copied and the descriptor offset is restored, or the descriptor offset moves |
| CopyRange.Machine.Read | capio/posix/handlers/copy_file_range.hpp:95-114 | the bytes returned are those at the position, which moves past them, for each kind of end: all that the file has, or as many as the kernel gives, or the error of the kernel |
| CopyRange.Machine.Write | capio/posix/handlers/copy_file_range.hpp:125-144 | the bytes the call took are written at the position, which moves past them |
| CopyRange.Machine.WriteAll | capio/posix/handlers/copy_file_range.hpp:156-174 | a prefix of the bytes is written, all of them unless the kernel failed, with its error, or took none, with an I/O error |
| CopyRange.Machine.ThroughBuffer | capio/posix/handlers/copy_file_range.hpp:262-306 | for every pattern of short reads, short writes and errors both ends stand exactly the bytes copied past their start, and the output has the input bytes there; it stops short only at the end of the input, or when the kernel fails or transfers nothing, and reports the error of that call, or that no buffer could be mapped |
| CopyRange.Machine.Request | capio/server/include/utils/common.hpp:126-148 | the server copies some of the bytes the input has, and nothing else changes |
| CopyRange.Machine.OnServer | capio/posix/handlers/copy_file_range.hpp:225-247 | for any partial replies and an input that grows, the loop ends, both positions move by the bytes copied, and the output has the input bytes there; within one file, by whole replies, it copies what each reply finds, its own output included |
| CopyRange.FinishBoth | capio/posix/handlers/copy_file_range.hpp:413-421 | both ends are finished so that an offset they share ends where the end without a caller offset puts it |
| CopyRange.Machine.CopyFileRange | capio/posix/handlers/copy_file_range.hpp:308-429 | a call that fails changes no file and no offset; otherwise every offset moves by the bytes copied or is restored, also when offsets are shared, and the output has the input bytes; fewer than asked for only at the end of the input, after a reply of the server that could copy nothing or a call into the kernel that failed or transferred nothing; an accepted call fails only with the error of such a call or for want of a buffer |
| CopyRange.AcceptedIff | capio/posix/handlers/copy_file_range.hpp:314-402 | a call is accepted iff flags, kinds and access modes allow it, no range is negative or ends past the largest offset, and no existing byte of one file is in both ranges |
| CopyRange.ErrnoIff | capio/posix/handlers/copy_file_range.hpp:319-402 | a refused call reports EISDIR, EBADF and EOVERFLOW each iff its own reason holds and none before it, and EINVAL otherwise |
| CopyRange.MaxCountIsWholePages | capio/posix/utils/common.hpp:17-20 | one call copies at most the largest multiple of the page size that an `int` holds |
| CopyRange.WrapsIff | capio/posix/handlers/copy_file_range.hpp:361-369 | the unsigned 64-bit test finds exactly the ranges that end past the largest offset |
| CopyRange.OverlapsIff | capio/posix/handlers/copy_file_range.hpp:391-402 | a copy within one file is refused iff a byte it would read is one it would write |
| CopyRange.StopsAtOldEndIff | capio/posix/handlers/copy_file_range.hpp:234-246 | the count that the loop copies within one file by whole replies stops at its old end iff it asks for no more, or writes before it reads |
| CopyRange.CopyPastOldEnd | capio/posix/handlers/copy_file_range.hpp:308-429 | a call that is accepted on a file of two bytes and copies four, the last two of them its own |
| Frames.WriteU64 | capio/server/src/mtcl_backend.cpp:139-144 | the eight bytes become the big-endian digits of the value and no other byte changes |
| Frames.ReadU64 | capio/server/src/mtcl_backend.cpp:147-153 | the value is that of the eight bytes, and no shift loses a bit |
| Frames.ValueOfDigits | capio/server/src/mtcl_backend.cpp:139-153 | reading what was written gives the value back |
| Frames.DigitsOfValue | capio/server/src/mtcl_backend.cpp:139-153 | writing what was read gives the bytes back |
| Frames.SendFrame | capio/server/src/mtcl_backend.cpp:336-346 | the frame filled in place is the encoding of the request and the file |
| Frames.FrameLayout | capio/server/src/mtcl_backend.cpp:336-346 | the type, the two sizes most significant byte first, the request and the file are each at their place in the frame |
| Frames.SendFile | capio/server/src/mtcl_backend.cpp:454-478 | a frame is sent iff the sizes are within the limits |
| Frames.ReadFrame | capio/server/src/mtcl_backend.cpp:208-271 | the checks of the receiver compute the decoding |
| Frames.DecodeOfEncode | capio/server/src/mtcl_backend.cpp:208-276 | every frame sent is decoded to the same request and file |
| Frames.EncodeOfDecode | capio/server/src/mtcl_backend.cpp:208-276 | every frame accepted is the encoding of what it decodes to, with sizes whose sum did not wrap |
| Frames.AcceptedIff | capio/server/src/mtcl_backend.cpp:208-276 | a frame is accepted iff it could have been sent |
| Handoff.Listener.ReadNextRequest | capio/server/src/mtcl_backend.cpp:182-279 | malformed frames cost their sender the connection until it connects again, and the file kept is that of the request returned |
| Handoff.Listener.RecvFile | capio/server/src/mtcl_backend.cpp:485-496 | exactly the bytes kept are copied and forgotten iff there are some of the length expected; otherwise nothing changes |
| Handoff.Listener.Handle | capio/server/include/remote/handlers/read.hpp:105-115 | a reply takes its file iff it announces bytes |
| Handoff.Listener.Run | capio/server/src/mtcl_backend.cpp:182-279 | over any frames, the calls of `recv_file` are those the frames call for |
| Handoff.PayloadHandOff | capio/server/include/remote/requests.hpp:29-42 | over frames of servers that announce what they send, every reply delivers its own bytes, once and in order, and no call throws |
| Handoff.DeliveredAtMostOnce | capio/server/src/mtcl_backend.cpp:485-496 | over any frames, the bytes delivered are the file of a frame of that sender, and no frame delivers twice |
| Handoff.MalformedFrameIsContained | capio/server/src/mtcl_backend.cpp:182-279 | a malformed frame costs its sender all that it sends before it connects again, and the other peers are served as if it were not there |
| Handoff.RemovedIff | capio/server/src/mtcl_backend.cpp:182-279 | a peer is dropped iff it was, or has sent a malformed frame, and has not connected since |
| Handoff.DeliveriesSplit | capio/server/src/mtcl_backend.cpp:182-279 | what arrives later is handled as if the listener began with the peers dropped so far |
| Handoff.MismatchStops | capio/server/src/mtcl_backend.cpp:485-496 | a reply that announces other bytes than came with it stops the listener |
| Descriptors.Tables.AddFd | capio/posix/utils/filesystem.hpp:101-117 | the maps stay consistent iff the descriptor is fresh or already of that path |
| Descriptors.Tables.DupFd | capio/posix/utils/filesystem.hpp:214-220 | the maps stay consistent iff the new descriptor is fresh or already of that path, and a fresh one shares the offset |
| Descriptors.Tables.DeleteFd | capio/posix/utils/filesystem.hpp:177-182 | the descriptor leaves all three maps, which stay consistent |
| Descriptors.Tables.DeletePath | capio/posix/utils/filesystem.hpp:189-195 | the path and exactly its descriptors go, in whatever order the loop takes them |
| Descriptors.Tables.RenamePath | capio/posix/utils/filesystem.hpp:337-344 | the maps stay consistent iff the new path is not known, or is the old one, or the old one had no descriptor |
| Descriptors.Tables.SetFdOffset | capio/posix/utils/filesystem.hpp:360-360 | the offset of the descriptor is set, and no other cell is touched |
| Descriptors.AddedTwice | capio/posix/utils/filesystem.hpp:111-117 | a descriptor added for a second path leaves the maps inconsistent |
| Descriptors.DuplicatedOntoUsed | capio/posix/utils/filesystem.hpp:214-220 | so does a duplicate onto a descriptor of another path |
| Descriptors.RenamedOntoKnown | capio/posix/utils/filesystem.hpp:337-344 | so does a rename of an open path onto another |
| Descriptors.InsertAgrees | capio/posix/utils/filesystem.hpp:111-117 | inserting without replacing keeps each descriptor in one set iff it was in no other |
| Descriptors.RenameAgrees | capio/posix/utils/filesystem.hpp:337-344 | renaming keeps each descriptor in the set of its path iff no descriptor is left without one |
| Descriptors.Run | capio/posix/utils/filesystem.hpp:101-220 | over any run on fresh descriptors and paths, the three maps are one table, and two descriptors share an offset iff duplicating led from one open to both |
| Descriptors.RunFromStart | capio/posix/utils/filesystem.hpp:101-220 | the same from the empty tables of a new client |
| Dirents.Directory.AddEntry | capio/server/src/storage_manager.cpp:22-71 | the records are those of the entries in order of creation, each with the offset of the next |
| Dirents.Directory.SendDirents | capio/server/include/utils/common.hpp:23-66 | the reply is the whole records that fit from the offset on, and the offset moves past them |
| Dirents.Directory.GetDents | capio/posix/utils/cache.hpp:63-87 | the client gets the whole records that fit in its buffer, and both offsets stay at a record |
| Dirents.Directory.List | capio/posix/utils/cache.hpp:63-87 | calling until 0 with any buffers of a record or more ends, with every record from there once and in order |
| Dirents.Directory.ListAfter | capio/server/include/utils/common.hpp:38-46 | seeking to the offset in a record resumes with the next record |
| Dirents.FillAndList | capio/server/src/storage_manager.cpp:46-65 | a directory filled and listed gives every entry once, whole, with its own name and number, in order of creation |

## Left out

- Syscall interception, thread start and exit, `execve`, shared-memory and semaphore creation.
- The text of requests: requests are datatypes; in `Handoff` the text of a reply is any format that can be parsed back.
- The memory quota: `Storage` takes any number up to the request, as two parameters of each operation.
- File location files, discovery of servers, the MPI and None backends, signals, logging.
- CAPIO-CL rules: whether a file may be read early, and who produces it, are parameters.
- Client `lseek` with `SEEK_END`, `SEEK_DATA` and `SEEK_HOLE`: the client ignores the reply or the argument.
- Removal of files, rename on the server, clones of a client and their offsets.
- `copy_file_range` from a file of another server, and its wait for data, which is that of a read.
- `stat`, `fcntl`, path normalisation.
- Null pointers in `send_file` and `recv_file`, and connections that are lost for other reasons than a malformed frame.
- CachedFiles.Session.CachedRead: one client thread uses the files and the server answers a request before the next call; the queue and the write protocol are interleaved step by step in `Ring`, `Transport` and `WriteSlots`.
- CachedFiles.Session.CachedWrite: the write starts at or before the end of the file; a write that leaves a hole is in `Storage`.
- Caches.Queue.Exchange: the elements are handed over one at a time; every other interleaving is in `Transport`.
- Caches.Server.HandleWrite: the write starts at or before the end of the file; a write that leaves a hole is in `Storage`.
- Caches.Server.HandleRead: the read is served at once, from a file that is complete for its reader; the waits are in `Streaming`.
- Streaming.SequentialStreaming: writes stop at the commit.
- WaitCommit.StuckMeansResting: one file; a thread that uses the buffer under `_mutex` is taken to finish, whatever queue or second file it works with.
- Replica.RemoteReadsAreExact: one reader of the replica, an append-only home file whose location is known, and no directory listing over the network.
- Replies are copied from a buffer without a lock while another thread may grow it: `Streaming` and `Replica` take the bytes of a buffer to stay where they are.
- Storage.CapioFile.WriteAt: the data has at least a byte, as clients send it.
- CopyRange.Machine.CopyFileRange: offsets are unbounded once the 64-bit checks have passed; the content claim for a copy within one file is for ranges that its data covers and that do not overlap.
- CopyRange.Machine.Read: a read of a CAPIO end is a plain read, by `CachedFiles`, since a chunk is never longer than a cache line.
- Dirents.Directory.SendDirents: record numbers are unbounded, where the code has `int`; the records travel as in `Transport`; the directory is committed and on this server.
- Dirents.Directory.AddEntry: the type recorded is that of the directory itself, as in the code, and names fit in a record.
