# A block device served from user space: model and proofs

The repository serves a Linux network block device from user space, twice: a
single-threaded C server (`BUSE/`), and a C++ request pipeline made of a proxy
object on a socket, a thread pool over a blocking priority queue, a factory of
request handlers and a file (`nbdproxy.cpp`, `framework/`,
`DesignPatterns/ThreadPool/`). Around them stand a timer-driven scheduler, an
observer with two-way links and a lock-free once-only initialiser.

`dafny verify dfyconfig.toml` checks everything.

## How the model is laid out

| file | content |
|---|---|
| `Bytes`, `Wire` | byte strings as numbers in either byte order; `ntohl`, `ntohll`; request headers, replies, and the 32-bit `NBDRWReq` |
| `Disk` | the reference: a disk is an array of bytes, commands are folded over it |
| `Transfers` | sockets and files whose system calls may move fewer bytes than asked, and the loops over them |
| `Buse` | `serve_nbd` as a function of its whole input, and as methods over both backends |
| `Pipeline`, `PipelineSafety`, `PipelineTheorems` | the concurrent pipeline, client included, as a step machine, and what holds in every reachable state |
| `PipelineOrder`, `PipelineRuns`, `PipelinePairs`, `PipelineLists` | one worker: exactly when replies and file are those of arrival order |
| `PipelineProgress`, `PipelineStall` | any number of workers: exactly when everything is always answered |
| `Factory`, `RequestEngine` | the objects behind the pipeline's steps, as classes |
| `WaitableQueue` | the priority queue with its condition variable: a step machine for any number of threads, and the class |
| `ThreadPool`, `PoolSafety`, `PoolTheorems` | the pool as a step machine: any number of workers and one controller |
| `PoolStop`, `PoolPause`, `PoolGates` | what Stop and Pause come to, and exactly when a paused pool lets something through |
| `PoolMethods` | the pool's own methods as a class; each call is shown to be a run of that machine |
| `Scheduler`, `SchedulerCalls` | timer and deadline queue: arithmetic, runs, classes; and what its callers are promised |
| `Observer` | dispatchers and callbacks: links as values, runs, classes |
| `Handleton` | `GetInstance` by any number of threads |
| `Options`, `Sets` | a value that may be absent; sizes of finite sets |

Sequential code is modelled by classes and loops whose contracts tie the new
state to a function of the old one. Where threads interleave, a step is what
one thread does between two points where another may run, and the theorems are
about every finite run.

The wire format is that of the NBD protocol (`doc/proto.md` of the Network
Block Device project, "Request message" and "Simple reply message" in the
Transmission section): 28-byte request headers and 16-byte replies.
`<linux/nbd.h>` is not part of this model; its structures and constants are
written out. The host is little-endian.

## What the code does that its names do not say

- `serve_nbd` stores a callback's error code without `htonl`
  (`BUSE/buse.c:188`, `BUSE/buse.c:198`), so a client reads it byte-swapped.
  `Wire.ErrorArrivesIntact` says exactly which codes survive.
- `serve_nbd` fetches a header with one `read` and asserts that it came whole
  (`BUSE/buse.c:135-136`). On a stream socket it may not; `Buse.ServeNbd`
  reports such a torn header, or a failed read, and `Buse.ServeSession` says
  what was done up to it.
- `NBDRWReq` keeps offset and length in 32-bit ints (`nbdproxy.hpp:56-57`).
  `Wire.RwRequestIntact` and `Wire.TransferTargetsRequest` give the exact range.
- `std::priority_queue` breaks ties arbitrarily, so requests, all of priority
  LOW, leave in any order. `PipelineOrder.PipelineEqualsInOrderExecution` needs
  its condition on the client: no two outstanding requests clash, that is,
  overlap without both being reads or writes of the same bytes.
  `PipelineLists.ListInOrderExactlyWhen` shows the condition exact for any list
  of requests outstanding together, and `PipelinePairs.PairInOrderExactlyWhen`
  for two requests on a known file.
- All workers seek and transfer on one descriptor without a lock, and `read_all`
  in `nbdproxy.cpp:67-82` does not leave its loop at the end of the file. One
  worker's seek can move the position from under another's transfer, which then
  goes round for ever: two workers reading the only byte of a file are enough
  (`PipelineStall.TwoReadersOfOneByte`).
  `PipelineStall.AlwaysCompletesExactlyWhen` gives the exact condition.
- Priority LOW is the smallest number and the smallest number leaves first, so
  LOW tasks are served before HIGH ones (`DesignPatterns/ThreadPool/threadpool.cpp:8-11`).
- Shrinking decrements the thread count and so does each `DeleteTask`;
  `PoolTheorems.ThreadCount` says when the count is right. A `Stop` after that
  spares as many workers as shrinking has killed: `PoolStop.StopSpares` and
  `PoolGates.StopKillsExactlyUnshrunk`.
- `Resume` changes the flag without the mutex: `PoolTheorems.ResumeMissesExactly`
  says which worker can sleep on, and `PoolTheorems.ResumeCanMissAWorker` is an
  instance.
- `Stop` never clears `m_is_paused`: `PoolGates.StopKillsExactlyUnpaused`.
- A thread created while the pool is paused may take a queued user task before
  the PauseTask that was queued for it, because the user task's number is the
  smaller: `PoolGates.NewThreadsStartQueuedTasks`, with an instance in
  `PoolGates.NewThreadOvertakesItsPause`. Workers that are held start nothing
  (`PoolTheorems.HeldWorkersStartNothing`).
- `CheckDeadline` adds seconds to milliseconds
  (`schedualer/schedualer.cpp:122`). `Scheduler.DeadlineBounds`,
  `Scheduler.OverlookedExactlyWhen` and `Scheduler.ServesExactlyWhen` give the
  exact conditions under which that matters.
- An `Add` that comes after the timer has run out and before `Cycle` has begun
  arms it again, and one Cycle too many follows: it finds the queue empty, or
  takes a task as early as one likes. `Scheduler.DependableExactlyWhen` and
  `Scheduler.InstantDependableExactlyWhen` say when that can happen.

## Model

| member | source | states |
|---|---|---|
| Bytes.LoadStored | BUSE/buse.c:135 | loading a word a little-endian host has stored gives the word back, for any width |
| Bytes.StoreLoaded | BUSE/buse.c:135 | storing a word loaded from bytes gives those bytes back |
| Bytes.NtohllReadsBigEndian | BUSE/buse.c:55-62 | ntohll turns the word loaded from any eight bytes into their big-endian value |
| Bytes.NtohllTwice | BUSE/buse.c:55-64 | ntohll is its own inverse on every 64-bit value, so htonll may be the same function |
| Bytes.NtohllIsBe64toh | nbdproxy.cpp:232 | the proxy's be64toh and the server's hand-written ntohll agree on every value |
| Wire.HeaderRoundTrip | BUSE/buse.c:138-145 | whatever a client encodes, the server's decoding recovers every field |
| Wire.HeaderBytesRoundTrip | BUSE/buse.c:138-145 | conversely every 28 bytes are the encoding of what they decode to: decoding loses nothing |
| Wire.ReplyMagicIsStored | BUSE/buse.c:132 | the four magic bytes of a reply are htonl of the protocol's constant as the host stores it |
| Wire.ReplyOnTheWire | BUSE/buse.c:131-139 | a reply is the bytes 67 44 66 98, the stored error word and the handle, sixteen in all |
| Wire.ReplyArrives | BUSE/buse.c:132-139 | a client reads the magic and the handle right, and the error word byte-swapped |
| Wire.ErrorArrivesIntact | BUSE/buse.c:187-200 | a callback's error code reaches the client unchanged if and only if its bytes are a palindrome |
| Wire.RwRequestIntact | nbdproxy.cpp:229-236 | NBDRWReq keeps type and handle always, offset and length if and only if both are below 2^31 |
| Wire.TransferTargetsRequest | nbdproxy.cpp:240-259 | seek and transfer address the client's bytes, wherever the file position was, if and only if both are below 2^31 |
| Wire.SeekWraps | nbdproxy.cpp:245 | for any offset the seek goes to it modulo 2^32, or nowhere if and only if that is 2^31 or more |
| Wire.AsInt32Wraps | nbdproxy.hpp:56-57 | an int keeps a number modulo 2^32 |
| Wire.AsSizeWraps | nbdproxy.cpp:246 | a negative size is handed on as its value modulo 2^64 |
| Disk.RunLast | BUSE/buse.c:145-205 | executing a list of commands can be peeled from its end as well as from its front |
| Disk.RunHoldsLatest | BUSE/buse.c:145-205 | after any list of commands each position holds the byte of the latest write that covered it |
| Disk.PayloadHoldsLatest | BUSE/buse.c:152-161 | a read's data is, byte by byte, the latest earlier write or the initial content |
| Transfers.ReadAll | BUSE/buse.c:66-81 | for every schedule of short reads: exactly the first count bytes of the stream arrive and are consumed, or the stream was too short |
| Transfers.WriteAll | BUSE/buse.c:83-96 | for every schedule of short writes the whole data is appended once |
| Transfers.ReadFully | BUSE/loopback.c:46-51 | for every schedule of short reads, one whole slice of the file; fails exactly beyond its end |
| Transfers.WriteFully | BUSE/loopback.c:62-67 | for every schedule of short writes, one whole splice; on a full device exactly the part that fits |
| Buse.RequestOnTheWire | BUSE/buse.c:138-164 | the literal bytes of every request: magic 25 60 95 13, type 0, 1, 3 or 4, handle, offset and length big-endian, a write's data |
| Buse.EndingOnTheWire | BUSE/buse.c:178-185 | the same for a DISC, type 2; the other ending is no byte at all |
| Buse.FrameArrives | BUSE/buse.c:138-205 | every reply is read as magic, handle and success, but to FLUSH and TRIM as what the callback of that request returned, byte-swapped, or success where there is none; then a read's data |
| Buse.FrameInPlace | BUSE/buse.c:135-206 | each reply stands in the stream right behind the lengths of those before it |
| Buse.QuietReply | BUSE/buse.c:135-206 | with callbacks missing or returning 0, each request in place gets a success with its own handle and, for a read, its data |
| Buse.TurnByBytes | BUSE/buse.c:135-211 | from the bytes on the stream, exactly when a turn goes on, ends in success, fails an assertion or asks for bytes out of range; a turn that does not go on writes nothing and leaves the disk |
| Buse.ReplyStreamFirst | BUSE/buse.c:135-206 | the replies owed to a list of commands are the first one's reply and then those owed by the disk it leaves |
| Buse.ServeResumes | BUSE/buse.c:135-206 | the loop may be cut after any turn and resumed on the input and disk it left |
| Buse.AnswerServes | BUSE/buse.c:145-205 | the switch answers the header and data of any in-range command with its one reply frame and its effect |
| Buse.TurnServes | BUSE/buse.c:135-206 | one turn on the encoding of any in-range command consumes just that and answers it |
| Buse.ServeRefinesDisk | BUSE/buse.c:123-212 | any list of in-range commands, whatever follows it, is done and answered in order with what a plain array holds at each point |
| Buse.InterruptedSession | BUSE/buse.c:135-206 | after any number of turns the server has done and answered exactly that many commands |
| Buse.SessionRefinesDisk | BUSE/buse.c:123-212 | a list of in-range commands ended by DISC or end of stream: exactly one frame each, the fold of the writes, success, and bytes after DISC untouched |
| Buse.TurnAccepts | BUSE/buse.c:135-206 | conversely a turn that goes on has read the encoding of an in-range command |
| Buse.SuccessMeansSession | BUSE/buse.c:123-212 | serve_nbd exits in success only on such a stream: what it consumed is an encoded list of in-range commands and an ending |
| Buse.XmpRead | BUSE/busexmp.c:31-40 | the memory backend delivers the addressed slice |
| Buse.XmpWrite | BUSE/busexmp.c:42-51 | the memory backend replaces the addressed slice and nothing else |
| Buse.LoopbackRead | BUSE/loopback.c:40-54 | however the device splits the transfer, the addressed slice; fails exactly out of range |
| Buse.LoopbackWrite | BUSE/loopback.c:56-70 | however the device splits the transfer, the addressed slice is replaced and nothing else |
| Buse.BackendRead | BUSE/buse.c:157 | both backends deliver the same slice of the same disk and leave it alone |
| Buse.BackendWrite | BUSE/buse.c:172 | both backends have the effect of one splice of the same disk |
| Buse.ServeRead | BUSE/buse.c:152-164 | reply header, then the disk's bytes, on the socket |
| Buse.ServeWrite | BUSE/buse.c:166-176 | data consumed, disk spliced, reply sent; or, when the data ends early, nothing changed |
| Buse.ServeRequest | BUSE/buse.c:144-205 | every branch of the switch, over buffers and short transfers, does what the function of the whole input says; flush and trim may return anything at each call |
| Buse.ServeTurn | BUSE/buse.c:135-206 | the same for a turn, unless the single read of the header was cut short or failed, and then what remains as it was |
| Buse.ServeNbd | BUSE/buse.c:123-212 | the loop over either backend, for all schedules of short transfers, equals the function of its whole input up to its end, a torn header (an assertion) or a failed read (EXIT_FAILURE) |
| Buse.ServeSession | BUSE/buse.c:123-212 | the real loop on an encoded session: all commands done and answered in order, or precisely a prefix before a header it could not fetch whole; with callbacks missing or returning 0 a success with its handle stands in the place of every reply |
| Factory.KeysAreThoseAdded | DesignPatterns/Factory/factory.hpp:21-28 | after any calls of Add a key has an entry if and only if it was ever added |
| Factory.FirstRegistrationWins | DesignPatterns/Factory/factory.hpp:21-28 | the entry of a key is the first function added for it |
| Factory.Factory.Add | DesignPatterns/Factory/factory.hpp:21-28 | reports whether the key was new, keeps an existing entry, records the call |
| Factory.Factory.Create | DesignPatterns/Factory/factory.hpp:30-40 | finds the function of the first registration |
| RequestEngine.NBDProxy.OnSocketReady | nbdproxy.cpp:171-211 | of an encoded READ or WRITE within range it consumes exactly the bytes and allocates one request object carrying type, handle, offset, length and data unharmed; on any bytes it makes a request if and only if their type is 0, or 1 with all the data there, and the object holds the decoded fields |
| RequestEngine.SendableExactlyWhen | nbdproxy.cpp:229-259 | the requests the pipeline is about are exactly the READs and WRITEs of bytes of the file whose seek and count reach the file unharmed |
| RequestEngine.NBDProxy.Done | nbdproxy.cpp:142-168 | appends one reply header and, for a READ, the buffer, and the request object ceases to be live; a size that is no part of the buffer is reported after the header |
| RequestEngine.MemoryFile.Read | nbdproxy.cpp:252-259 | the buffer receives the slice at the request's offset, or at the old position if that offset is negative; otherwise which way the transfer goes wrong |
| RequestEngine.MemoryFile.Write | nbdproxy.cpp:240-247 | a regular file is written at that place and grows where it must; a device takes all, or what fits before the loop never returns; a size that is no part of the buffer changes nothing |
| RequestEngine.PerformOperation | requesthandler.cpp:10-26 | the read handler fills the buffer with the slice at the request's offset and leaves the file; the write handler splices the buffer there and leaves the buffer |
| RequestEngine.RunTask | framework/requestengine.hpp:93-102 | a request task on a descriptor of its own: with the right handlers registered first, the file becomes what the reference disk becomes and one frame with the handle and the reference's payload is appended; with any others, what those do; the object is released |
| RequestEngine.FirstRegistrationsDecide | framework/requestengine.hpp:140-145 | each request gets its own kind of handler if and only if the first registrations of both keys are the right ones |
| Pipeline.AnyRequestMayBeTop | framework/requestengine.hpp:109-115 | among queued request tasks, all of priority LOW, every one may be the top |
| PipelineSafety.StepKeepsAccounted | nbdproxy.cpp:142-211 | every step keeps accepted requests the disjoint union of queued, in one worker's hands, and finished, with live objects exactly for the first two |
| PipelineSafety.StepKeepsFramed | nbdproxy.cpp:155-162 | every step keeps the socket's bytes complete frames plus the part of one frame written by the holder of the mutex |
| PipelineSafety.StepKeepsAnswered | nbdproxy.cpp:142-168 | every step keeps frames answering distinct accepted requests, with their handle and the length they asked for |
| PipelineSafety.StepKeepsSynchronised | nbdproxy.cpp:142-168 | every step keeps the client's view a prefix of the frames and its table exactly the unanswered requests |
| PipelineSafety.FrameInStream | nbdproxy.cpp:155-162 | the n-th frame stands in the stream right after those before it |
| PipelineSafety.RepliesAreUnambiguous | nbdproxy.cpp:142-168 | though frames carry no length, a client parsing by its table of outstanding handles understands a frame if and only if it is the next complete one |
| PipelineSafety.RunKeepsInStep | nbdproxy.cpp:142-211 | all of this after every run, for any number of workers and interleaving of seeks, short transfers on the shared position and short writes of replies |
| PipelineTheorems.SocketCarriesWholeFrames | nbdproxy.cpp:155-162 | in every reachable state the socket carries complete frames and then a proper part of one, which belongs to the worker holding the mutex |
| PipelineTheorems.EachRequestOnce | nbdproxy.cpp:142-211 | in every reachable state each accepted request is in exactly one place, its object is live until it is finished and deleted once, and it is answered once with its own handle |
| PipelineOrder.ReadIsInOrder | nbdproxy.cpp:252-259 | a read among applied commands sees what in-order execution shows it, if no command it clashes with is on the wrong side of it |
| PipelineOrder.WriteIsInOrder | nbdproxy.cpp:240-247 | a write out of order leaves the latest byte by arrival at every position, if no later command it clashes with was applied |
| PipelineOrder.StepKeepsSettled | framework/requestengine.hpp:93-115 | whoever the client is, every step of a lone worker, in the middle of a transfer too, keeps file and replies those of arrival order as long as the memory operation it is in is harmless |
| PipelineOrder.StepKeepsOrdered | framework/requestengine.hpp:93-115 | every step of a lone worker and a client that never has clashing requests outstanding keeps file and replies those of arrival order |
| PipelineOrder.PipelineEqualsInOrderExecution | framework/requestengine.hpp:93-115 | whatever the queue's tie-breaking and however transfers are split, every reply understood carries what executing in arrival order would have read, and at rest the file is the fold of all writes |
| PipelinePairs.PairInOrderExactlyWhen | framework/requestengine.hpp:93-115 | for any two requests with distinct handles on any file: all runs on them give the replies and the resting file of arrival order if and only if the two commute on that file |
| PipelinePairs.CommuteExactlyWhen | framework/requestengine.hpp:93-115 | two requests commute on every file of a size if and only if they do not clash, which a client can check before sending |
| PipelinePairs.CommutingRunSettles | framework/requestengine.hpp:93-115 | on commuting requests every state of every run holds what arrival order makes of the requests applied |
| PipelinePairs.SwappedRun | framework/requestengine.hpp:93-115 | for any two requests a run exists in which both are outstanding and the second is carried out first |
| PipelinePairs.DisagreeingWritesCanSwap | framework/requestengine.hpp:93-115 | for any two writes that disagree about a byte some run ends at rest with a file that is not that of arrival order |
| PipelinePairs.ReadCanMissEarlierWrite | framework/requestengine.hpp:93-115 | for any write and later read of a byte it changes, some reply carries what arrival order would not have read |
| PipelinePairs.ReadCanSeeLaterWrite | framework/requestengine.hpp:93-115 | the mirrored case: a read answered with a byte written after it |
| PipelineLists.RunWithoutClash | framework/requestengine.hpp:93-115 | on any list of requests of which no two clash, every state of every run holds what arrival order makes of those applied |
| PipelineLists.ClashShows | framework/requestengine.hpp:93-115 | for any list with a clashing pair there is a file and a run on it that is not in arrival order |
| PipelineLists.ListInOrderExactlyWhen | framework/requestengine.hpp:93-115 | any list of requests with distinct handles: on every file and in every run the replies and the resting file are those of arrival order if and only if no two clash |
| PipelineProgress.StepFalls | nbdproxy.cpp:142-211 | for any number of workers every step but the client's sending lowers one measure of the work left, unless it is a transfer of 0 bytes, which changes nothing |
| PipelineProgress.SomebodyCanStep | nbdproxy.cpp:142-211 | with a worker and both keys registered, server or client can step until everything sent is answered, if only round a transfer loop: nobody waits for a lock or a queue for ever |
| PipelineProgress.EverythingMovesOn | nbdproxy.cpp:142-211 | from every reachable state, without new requests, the steps that are no transfer of 0 bytes are bounded, and a standstill is reached exactly when every request has its reply |
| PipelineStall.RunKeepsPlaced | nbdproxy.cpp:240-259 | in every run the shared position and all bytes still to move stay within one seek and one request per worker, and a lone worker's position is its own |
| PipelineStall.SomebodyDrowns | nbdproxy.cpp:240-259 | for any two or more workers on any file they can read past, some run leaves a read in its loop at the end of the file with nobody to move the position back |
| PipelineStall.TwoReadersOfOneByte | nbdproxy.cpp:240-259 | such a state for two workers and a file of one byte |
| PipelineStall.DrownedForever | nbdproxy.cpp:72-77 | that request is never answered, in any continuation without new requests |
| PipelineStall.AlwaysCompletesExactlyWhen | nbdproxy.cpp:240-259 | for every client of this file everything is always answered within bounded steps if and only if there is at most one worker, the file is empty, or it is longer than one seek and one request per worker can reach |
| PipelineStall.EverythingIsAnswered | nbdproxy.cpp:142-259 | under that condition, from every reachable state every way of going on without new requests is bounded, and stands still exactly when every request has its reply |
| PipelineProgress.StandstillIsInOrder | framework/requestengine.hpp:93-115 | with one worker and a client without clashing requests outstanding, at the standstill every request was answered once as in arrival order and the file is the fold of all writes |
| WaitableQueue.TopExists | DesignPatterns/ThreadPool/waitablequeue/waitablequeue.hpp:64 | a non-empty queue has a task that ranks below no other |
| WaitableQueue.TopByName | DesignPatterns/ThreadPool/threadpool.cpp:8-11 | a task may leave if and only if nothing of an earlier kind is queued: LOW before MEDIUM before HIGH, any user task before a PauseTask, everything before a DeleteTask |
| WaitableQueue.EnqueueKeepsSound | DesignPatterns/ThreadPool/waitablequeue/waitablequeue.hpp:43-50 | push and notify_one lose no wakeup and no task |
| WaitableQueue.TakeKeepsSound | DesignPatterns/ThreadPool/waitablequeue/waitablequeue.hpp:53-68 | neither does taking the top |
| WaitableQueue.RunsAreSound | DesignPatterns/ThreadPool/waitablequeue/waitablequeue.hpp:42-68 | in every reachable state of any producers and blocking consumers, spurious wakeups included: if someone sleeps un-notified, the woken are at least as many as the items; enqueued equals queued plus delivered |
| WaitableQueue.TakenLast | DesignPatterns/ThreadPool/threadpool.cpp:8-11 | when a task is taken, every task of a smaller number ever enqueued has been delivered as often as it was enqueued |
| WaitableQueue.TakenAfter | DesignPatterns/ThreadPool/threadpool.cpp:8-11 | by name: when a MEDIUM task is taken every LOW one ever enqueued has been delivered, when a HIGH one every LOW and MEDIUM one, when a PauseTask every user task, when a DeleteTask everything else |
| WaitableQueue.DrainAscends | DesignPatterns/ThreadPool/threadpool.cpp:8-11 | over any run of the queue while nothing is enqueued, tasks leave in non-decreasing rank, and none left behind outranks one taken |
| WaitableQueue.AscendingByName | DesignPatterns/ThreadPool/threadpool.cpp:8-11 | that order of delivery by name, both ways |
| WaitableQueue.WaitableQueue.Enqueue | DesignPatterns/ThreadPool/waitablequeue/waitablequeue.hpp:43-50 | one step of the queue machine: the task added, exactly one sleeper woken if there is any |
| WaitableQueue.WaitableQueue.DequeuePass | DesignPatterns/ThreadPool/waitablequeue/waitablequeue.hpp:53-68 | waits exactly when the queue is empty, otherwise removes and returns a task such that nothing of an earlier kind is queued |
| PoolSafety.RunKeepsInv | DesignPatterns/ThreadPool/threadpool.cpp:16-176 | registry, wakeups, locks, thread ledger, pause law and account of DeleteTasks hold in every state of every run |
| PoolSafety.ResizeKeepsLedger | DesignPatterns/ThreadPool/threadpool.cpp:24-55 | growing and shrinking keep the count equal to live threads less the decrements of shrinking, up to the one increment in progress |
| PoolSafety.GateKeepsPauseLaw | DesignPatterns/ThreadPool/threadpool.cpp:76-117 | Pause, Resume and Stop keep the queued PauseTasks plus held workers as many as the law asks at each point of their loops |
| PoolSafety.WorkerKeepsDeleteAccount | DesignPatterns/ThreadPool/threadpool.cpp:124-176 | taking and executing tasks keeps one DeleteTask per live worker after a single Stop |
| PoolSafety.RunKeepsShrinkAccount | DesignPatterns/ThreadPool/threadpool.cpp:44-53 | before any Stop, in every run, DeleteTasks queued or in hand plus the dead are the decrements of shrinking |
| PoolTheorems.ThreadCount | DesignPatterns/ThreadPool/threadpool.cpp:51 | between the controller's calls m_num_of_threads is the live threads less the decrements of shrinking, a negative start included; it is right if and only if there were none |
| PoolTheorems.StopQueuesOnePerWorker | DesignPatterns/ThreadPool/threadpool.cpp:86-97 | a single Stop without shrinking leaves exactly one DeleteTask per live worker |
| PoolTheorems.StopLocksOut | DesignPatterns/ThreadPool/threadpool.cpp:86-97 | while Stop holds the mutex nobody registers, dies, or enters or leaves the pause, so its loop counts against a fixed number |
| PoolTheorems.KillFindsItself | DesignPatterns/ThreadPool/threadpool.cpp:162-176 | the lookup in DeleteTask always succeeds and removes exactly the running worker |
| PoolTheorems.DeadForever | DesignPatterns/ThreadPool/threadpool.cpp:124-140 | a worker that executed a DeleteTask never returns and never dequeues again |
| PoolTheorems.PoolLosesNoWakeup | DesignPatterns/ThreadPool/waitablequeue/waitablequeue.hpp:42-68 | no worker of the pool sleeps un-notified while more items wait than workers are on their way |
| PoolTheorems.DeleteDrainsFirst | DesignPatterns/ThreadPool/threadpool.cpp:8-11 | when a worker takes a DeleteTask every user task and PauseTask ever enqueued has been delivered as often as enqueued |
| PoolTheorems.LowDrainsFirst | DesignPatterns/ThreadPool/threadpool.cpp:8-11 | when a worker takes a MEDIUM task every LOW task ever submitted has been delivered, when a HIGH one every LOW and MEDIUM task, when a PauseTask every user task |
| PoolTheorems.PoolDrainAscends | DesignPatterns/ThreadPool/threadpool.cpp:8-11 | the same over any run of the whole pool while nothing is enqueued, whichever workers take the tasks |
| PoolTheorems.PauseReachesEveryWorker | DesignPatterns/ThreadPool/threadpool.cpp:76-84 | from the end of Pause until Resume, inside SetThreadNumber and Stop as between calls, queued PauseTasks plus held workers are at least the live workers and those about to be created, less the shrinks |
| PoolTheorems.HeldWorkersStartNothing | DesignPatterns/ThreadPool/threadpool.cpp:104-111 | over any run without Resume, growth and Stop included, workers that are held stay held and neither take a task nor die |
| PoolTheorems.HeldPoolStartsNothing | DesignPatterns/ThreadPool/threadpool.cpp:104-111 | once all workers are held, whatever starts before Resume starts on a thread created since, and none of them dies |
| PoolTheorems.HeldPoolStandsStill | DesignPatterns/ThreadPool/threadpool.cpp:104-111 | so over any run without Resume and without new threads nothing at all is delivered |
| PoolGates.NewThreadsStartQueuedTasks | DesignPatterns/ThreadPool/threadpool.cpp:24-42 | on every reachable wholly held pool, for every user task at the top: without a new thread nothing is delivered, and after SetThreadNumber with one more the new thread can take that task while the pool is paused |
| PoolGates.NewThreadOvertakesItsPause | DesignPatterns/ThreadPool/threadpool.cpp:24-42 | a reachable instance: a held pool of one, a user task submitted, SetThreadNumber(2), the task delivered under the pause |
| PoolGates.PausedPoolKillsNobody | DesignPatterns/ThreadPool/threadpool.cpp:86-99 | from any reachable paused state of an unshrunk pool, over every run without Resume, growing, shrinking and Stops included, only workers that already had a DeleteTask in hand die |
| PoolGates.StopKillsExactlyUnpaused | DesignPatterns/ThreadPool/threadpool.cpp:86-99 | the first Stop of an unshrunk pool can end in every worker's death before Resume if and only if m_is_paused is false; if it is true no worker dies at all |
| PoolTheorems.ResumeMissesExactly | DesignPatterns/ThreadPool/threadpool.cpp:113-117 | of all workers, exactly the one that holds m_mutex between its test and its wait when Resume notifies can come to sleep un-notified before the next Pause |
| PoolTheorems.ResumeCanMissAWorker | DesignPatterns/ThreadPool/threadpool.cpp:113-117 | a reachable state of a pool of one in which that has happened |
| PoolPause.PauseTakesBoundedWork | DesignPatterns/ThreadPool/threadpool.cpp:76-111 | after Pause on an unshrunk pool, with nothing submitted, every continuation is bounded by a measure plus three per spurious wakeup |
| PoolPause.UnheldCanStep | DesignPatterns/ThreadPool/threadpool.cpp:104-134 | as long as a worker is not held some worker can step: no deadlock |
| PoolPause.PauseHoldsEverybody | DesignPatterns/ThreadPool/threadpool.cpp:76-111 | every such continuation comes to rest exactly when every worker is held, and these are all the workers there were if none had been told to die |
| PoolPause.PauseCanHoldEverybody | DesignPatterns/ThreadPool/threadpool.cpp:76-111 | and from each such state that rest can be reached |
| PoolStop.StepWinds | DesignPatterns/ThreadPool/threadpool.cpp:86-176 | after the first Stop on an unpaused pool every step but a spurious wakeup lowers one measure of the work left, and workers outnumber DeleteTasks by the same number throughout |
| PoolStop.StopTakesBoundedWork | DesignPatterns/ThreadPool/threadpool.cpp:86-176 | so every continuation is bounded by that measure plus two per spurious wakeup |
| PoolStop.WindingCanStep | DesignPatterns/ThreadPool/threadpool.cpp:124-176 | until whoever is left sleeps over an empty queue, some thread can step: no deadlock |
| PoolStop.StopFinishes | DesignPatterns/ThreadPool/threadpool.cpp:86-176 | where it ends as many workers live as outnumbered the DeleteTasks, asleep over an empty queue, and the others are dead |
| PoolStop.StopSpares | DesignPatterns/ThreadPool/threadpool.cpp:86-102 | the first Stop of any reachable unpaused pool, shrunk or not: every way of going on is bounded and ends with as many workers alive as had died of earlier shrinks, corrected for a negative count or start |
| PoolStop.StopDrainsThePool | DesignPatterns/ThreadPool/threadpool.cpp:86-102 | from any reachable unpaused unshrunk state, every way of going on after Stop is bounded and ends only with every worker dead, the count zero and the queue drained |
| PoolGates.StopKillsExactlyUnshrunk | DesignPatterns/ThreadPool/threadpool.cpp:86-102 | such a Stop, alone, can kill every worker if and only if no shrink has killed anybody yet, where the count is not and did not start negative; in general if and only if workers do not outnumber DeleteTasks |
| PoolMethods.ThreadPool.constructor | DesignPatterns/ThreadPool/threadpool.cpp:16-22 | creates that many threads, none for a negative number, by a run of the machine from an initial state |
| PoolMethods.ThreadPool.AddTask | DesignPatterns/ThreadPool/threadpool.cpp:70-74 | adds the task, waking one sleeper if there is any |
| PoolMethods.ThreadPool.Pause | DesignPatterns/ThreadPool/threadpool.cpp:76-84 | sets the flag and queues one PauseTask per counted thread; the call is a run of the machine |
| PoolMethods.ThreadPool.Resume | DesignPatterns/ThreadPool/threadpool.cpp:113-117 | clears the flag and notifies every held thread; the call is a run of the machine |
| PoolMethods.ThreadPool.Stop | DesignPatterns/ThreadPool/threadpool.cpp:86-102 | notifies the held, queues one DeleteTask per counted thread, waits until its timeout, leaves the flag; the call is a run of the machine |
| PoolMethods.ThreadPool.SetThreadNumber | DesignPatterns/ThreadPool/threadpool.cpp:24-55 | sets the count to the argument at once; growth adds that many starting threads, leaves the others where they stand, and queues as many PauseTasks when paused; shrinking only queues DeleteTasks; the call is a run of the machine |
| PoolMethods.ThreadPool.RegisterFunctor | DesignPatterns/ThreadPool/threadpool.cpp:57-61 | adds the running thread, and it alone, to the map and enters its loop; the call is a run of the machine |
| PoolMethods.ThreadPool.Delete | DesignPatterns/ThreadPool/threadpool.cpp:162-176 | removes the running thread from the map and the living and decrements the count; the call is a run of the machine |
| Scheduler.DeadlineError | schedualer/schedualer.cpp:118-123 | CheckDeadline is short by 999 for every whole second left |
| Scheduler.DeadlineBounds | schedualer/schedualer.cpp:118-123 | it never exceeds the milliseconds left, equals them if and only if less than a second is left, and is 0 if and only if less than a millisecond is |
| Scheduler.AddInNumbers | schedualer/schedualer.cpp:20-38 | in clock readings: the deadline counts from the first; Add arms if and only if the timer is disarmed, has less than a millisecond left at the second look, or shows a sum above the delay at the first; the expiry counts from the reading at arming |
| Scheduler.CycleInNumbers | schedualer/schedualer.cpp:48-62 | Cycle arms for a task of least deadline among those left, as far ahead as whole milliseconds remained at its reading of the clock, or one nanosecond |
| Scheduler.RunsForgetNothing | schedualer/schedualer.cpp:20-62 | in every state of every run each added task is waiting or notified, once, and while one waits the timer is armed or a Cycle is on its way |
| Scheduler.AddKeepsArmed | schedualer/schedualer.cpp:20-38 | Add keeps the invariant (armed exactly when something waits and no Cycle owed, expiry later than a millisecond before the earliest deadline) if and only if it does not arm over an expiry whose Cycle has not begun |
| Scheduler.CycleKeepsArmed | schedualer/schedualer.cpp:40-62 | so does Cycle, despite truncation and the fallback of one nanosecond |
| Scheduler.RunsAreWellArmed | schedualer/schedualer.cpp:20-102 | so the invariant holds in every state of every run whose Adds never arm over such an expiry |
| Scheduler.DependableExactlyWhen | schedualer/schedualer.cpp:34-62 | after an Add every run certain to give each Cycle a task, if and only if the Add did not arm over such an expiry |
| Scheduler.InstantDependableExactlyWhen | schedualer/schedualer.cpp:34-62 | for an Add that takes no time: if and only if the timer has not run out |
| Scheduler.DoubledCanBeEarly | schedualer/schedualer.cpp:34-62 | after an Add that did, some run notifies a task exactly as long before its deadline as one likes |
| Scheduler.NothingIsNotifiedEarly | schedualer/schedualer.cpp:40-62 | in every such run each Cycle finds a task, and whichever has the least deadline is notified less than a millisecond early |
| Scheduler.AddDoesNotPostpone | schedualer/schedualer.cpp:34-37 | with at least a millisecond left Add moves the expiry back by no more than its own duration beyond a millisecond, or makes it fire at once |
| Scheduler.PostponedExactlyWhen | schedualer/schedualer.cpp:34-37 | an Add that takes no time postpones the expiry if and only if less than a millisecond is left and the new task is not yet due |
| Scheduler.OverlookedExactlyWhen | schedualer/schedualer.cpp:34-37 | such an Add leaves the timer a millisecond or more late for its own task if and only if the delay lies between what CheckDeadline reports and the milliseconds really left |
| Scheduler.ServesExactlyWhen | schedualer/schedualer.cpp:34-37 | such Adds, whatever task and delay, neither postpone nor overlook if and only if between a millisecond and a second is left |
| Scheduler.TenSecondsHideATenth | schedualer/schedualer.cpp:34-37 | a timer armed for ten seconds ignores a task due in a tenth of one |
| Scheduler.BriskRunsArePunctual | schedualer/schedualer.cpp:20-102 | runs whose Adds never arm over such an expiry and all find the timer disarmed or within those limits never set it a millisecond and a span late for any task |
| SchedulerCalls.PendingAsCalled | schedualer/schedualer.cpp:22-28 | whatever waits under a call's task waits for the time of that call plus its delay |
| SchedulerCalls.NotifiedAsCalled | schedualer/schedualer.cpp:20-62 | over every history whose Adds never arm over an unserved expiry, a task is notified after its call, and later than the time of the call plus its delay less a millisecond |
| SchedulerCalls.SoonestCallFirst | schedualer/schedualer.cpp:42-43 | over every history, of the calls waiting the one notified is least in time of the call plus delay |
| SchedulerCalls.PunctualAsCalled | schedualer/schedualer.cpp:20-102 | under the limits above the timer is armed for every waiting call and less than a millisecond and a span late for it |
| Scheduler.Timer.Arm | schedualer/schedualer.cpp:80-102 | sets the expiry that many milliseconds ahead, or one nanosecond if that is not positive, as a proper seconds and nanoseconds pair |
| Scheduler.Timer.Disarm | schedualer/schedualer.cpp:110-116 | leaves no expiry |
| Scheduler.Timer.CheckDeadline | schedualer/schedualer.cpp:118-123 | reports the unscaled sum of the time left and does not disturb an expiry still ahead |
| Scheduler.Scheduler.Add | schedualer/schedualer.cpp:20-38 | one Add step of the runs above, at any clock readings, its deadline counted from the first; keeps their invariant if and only if it does not arm over an expiry still to be served |
| Scheduler.Scheduler.Cycle | schedualer/schedualer.cpp:40-62 | one Cycle step: an expiry is used up, a task of least deadline removed and notified, the timer armed for a next one if there is one |
| Observer.AttachNeedsDetached | DesignPatterns/observer/observer.hpp:78-83 | attaching keeps both sides of the links in agreement if and only if the callback was attached nowhere |
| Observer.DetachKeepsLinked | DesignPatterns/observer/observer.hpp:85-104 | detaching keeps them in agreement from any dispatcher, its own or not, and afterwards neither side mentions the other |
| Observer.DropCallbackKeepsLinked | DesignPatterns/observer/observer.hpp:121-130 | destroying a callback leaves no link to it |
| Observer.DropDispatcherKeepsLinked | DesignPatterns/observer/observer.hpp:66-76 | destroying a dispatcher leaves no link to it |
| Observer.RunsStayLinked | DesignPatterns/observer/observer.hpp:66-136 | over any run of creations, attaches of detached callbacks, detaches and destructions: in a list exactly when pointing to its dispatcher, no duplicates, no link to the destroyed, lists newest first |
| Observer.LinkedMeansOnce | DesignPatterns/observer/observer.hpp:106-116 | where the links agree a subscriber hears each event exactly once |
| Observer.Dispatcher.Attach | DesignPatterns/observer/observer.hpp:78-83 | the new subscriber in front, its pointer set, every other link as it was |
| Observer.Dispatcher.Detach | DesignPatterns/observer/observer.hpp:85-104 | the first occurrence removed and its pointer cleared, or nothing changed when it is not there |
| Observer.Dispatcher.NotifyAll | DesignPatterns/observer/observer.hpp:106-116 | every subscriber updated once per listing, in list order |
| Observer.Dispatcher.Destroy | DesignPatterns/observer/observer.hpp:66-76 | every subscriber told once per listing and its pointer cleared, every other link as it was |
| Observer.Callback.Destroy | DesignPatterns/observer/observer.hpp:121-130 | the callback leaves the list of the dispatcher it points to, every other link as it was |
| Handleton.MoveKeepsInv | DesignPatterns/Singletone/handleton/handleton.h:40-62 | every shared access keeps one winner at most and readiness implying the object |
| Handleton.OneObjectForAll | DesignPatterns/Singletone/handleton/handleton.h:40-62 | in every run any two pointers returned, at whatever moments, are the one object built, and not null |
| Handleton.ConstructedAtMostOnce | DesignPatterns/Singletone/handleton/handleton.h:50-55 | in every run at most one constructor run, by one thread at a time, and ready only with the object set |
| Handleton.EverybodyCanReturn | DesignPatterns/Singletone/handleton/handleton.h:48-62 | once published, every call in progress can return on its own within three steps, with the one object |
| Handleton.WinnerCanPublish | DesignPatterns/Singletone/handleton/handleton.h:50-55 | until then the winner can always move, and three of its moves publish |
| Handleton.OthersWait | DesignPatterns/Singletone/handleton/handleton.h:56-59 | meanwhile no other thread returns, builds or disturbs the winner |
| Handleton.ReturningNeedsReady | DesignPatterns/Singletone/handleton/handleton.h:48-62 | a thread, the winner included, comes to return the object only by a look that finds it ready |

## Left out

- Buse.ServeNbd: a request for bytes out of the backend's range ends the model with OutOfBounds, because memcpy has no defined meaning there and loopback's assertion aborts; the big-endian ntohll is not modelled.
- Buse.ServeSession: the disc callback has no effect on socket or disk and is left out; flush and trim contribute their return value, which may depend on the call.
- Transfers.ReadAll: system calls return a positive count or the end of the stream, as the assertions in buse.c demand; the copies in nbdproxy.cpp do not check, and after the end of the stream they would never return.
- RequestEngine.NBDProxy.OnSocketReady: a type other than READ or WRITE yields null; the code hands on a bare DISC request with its type unconverted, or dereferences null.
- RequestEngine.NBDProxy.Done: run by one thread; m_mutex and its contenders are in the step machine. What a READ of more bytes than its buffer has would send is undefined and not modelled.
- RequestEngine.MemoryFile.Read: past the end of the file the loop never returns and what it leaves in the buffer is not stated.
- RequestEngine.MemoryFile.Write: a write that a full device refuses counts as 0 bytes; the code does not check and would move its pointer back on -1.
- RequestEngine.RunTask: the handler object the factory makes is never freed by the code; the model has no such object.
- PipelineOrder.PipelineEqualsInOrderExecution: one worker only, because MemoryFile seeks and transfers on a shared descriptor without a lock; with more workers a transfer goes wherever the position is by then.
- PipelineSafety.RunKeepsInStep: the client sends only READ and WRITE in range, with offset and length below 2^31 and handles not already outstanding; OnSocketReady is one step, since nobody else reads the socket.
- PipelineStall.AlwaysCompletesExactlyWhen: no more than 2^64 workers, as many as there are handles.
- PoolSafety.RunKeepsInv: one controller thread; its loops are program counters there because workers run between iterations. The class in PoolMethods runs a call without interruption.
- PoolMethods.ThreadPool.Stop: nobody else runs during the call, so its wait on m_stop_cv ends by the timeout; in the machine that wait may end at any time.
- PoolStop.StopDrainsThePool: user tasks terminate; spurious wakeups are counted, not excluded. The same holds of PoolPause.PauseHoldsEverybody.
- WaitableQueue.WaitableQueue.DequeuePass: one pass of the loop; the timed Dequeue, which gives up without looking at the queue again, is not modelled, nor is Size.
- Scheduler.DependableExactlyWhen: an expiry that has happened gets its Cycle even if the timer is armed again first; POSIX leaves that open.
- Scheduler.Scheduler.Cycle: one step once it has begun, on a queue that holds a task, and reading the next task is guarded by the empty check; the code takes no mutex there and reads top() first. Dispatchers notified by the scheduler are task numbers.
- Observer.Dispatcher.NotifyAll: callbacks record what they are told and leave subscriptions alone; a callback that detaches or deletes itself during the loop (kamikaze) has no defined meaning.
- Handleton.OneObjectForAll: accesses are sequentially consistent, constructors do not throw, and DestroyInstance at exit is not modelled.
- buse_main, the NBDProxy constructor, destructor and RunServer: ioctl, fork, signals and sockets.
- RequestEngine::Run and AddResource: the select loop over several descriptors.
- masterproxy and slaveproxy: unfinished in the repository.
- dirmonitor, dlloader, pnpcommands, kamikaze: inotify and dlopen plumbing.
- singletone.hpp: its second check tests a stale local; the handleton is modelled instead.
- The inside of std::priority_queue, std::map and std::list, and all logging.
