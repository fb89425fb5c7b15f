# F3: models and proofs

F3 is a FUSE file system that keeps intermediate data on the node that wrote it and streams it,
on demand, to the nodes that read it. It consists of a FUSE driver (`f3/fuse/f3.cc`, grown out of
libfuse's `passthrough_hp.cc`), the libfuse it ships with, and a pair of Go daemons
(`f3/client-server`) that move file contents between nodes. This project models its core in Dafny
and proves what that core is relied on for.

Code that works in place is written in place: buffer vectors, the thread's pipe, the worker ring,
the inode map, directory handles and reply buffers are classes and arrays whose methods are proved
against functions on values. Protocols between threads or machines are step systems; their
theorems hold for every run, that is for every interleaving.

System calls are methods of a `Machine` that may fail or come back short, as the manual pages
allow. A `Machine` may also be `reliable`; contracts then say exactly how much is moved, so that
they exclude an implementation that always gives up.

| module | models |
|---|---|
| `Storage`, `Vectors` | bytes, objects that hold them, buffers and lists of buffers as one stream |
| `BufCopy` | `lib/buffer.c` |
| `LittleEndian`, `SendData` | replies built from buffer vectors, through the pipe or through memory |
| `Requests` | receiving a request, and the handlers of READ and WRITE |
| `SessionLoop` | processing and answering requests, and the INTERRUPTs that wait, round after round |
| `Sequences`, `Ring` | lists, and circular doubly linked lists |
| `WorkerPool`, `WorkerRing` | the worker threads: the step system, and the code on the ring of workers |
| `Interrupts`, `RequestRing` | requests, INTERRUPTs and their callbacks under the two locks: the step system, and the code on the rings of requests |
| `Transfer`, `Streaming`, `ConsumerRead` | producer, server, clients and the reads that wait for them |
| `InodeTable`, `InodeMap` | lookup counts, recycling and generations: the step system, and the objects |
| `Dirent`, `Readdir` | directory records in a buffer, and paged reading of a directory |
| `Decimal`, `PublishedSize` | the size attribute, from the producer's writes to the consumer's target |
| `DownloadRequest` | the request line between the driver and the client daemon |
| `Init` | the INIT negotiation |

## What does not hold as one would expect

Each of these is stated with the condition under which it does hold.

- An interrupt callback can be missed: `find_interrupted` lets go of `se->lock` between finding a
  request and locking it, and the request may be freed in between
  (`Interrupts.LateInterruptOccurs`). With one interrupt and one callback it runs once if and only
  if the interrupt gets both locks before the request is freed (`Interrupts.OneInterruptOneCall`).
- `fuse_req_interrupt_func` releases the lock of a request to which it has no reference. That request
  is destroyed or about to be if and only if it was freed in the meantime, as by a callback that
  answers it, and no handler refers to it (`Interrupts.ReleasedAlive`,
  `Interrupts.AnsweredInCallbackOccurs`).
- A pool with `max_idle` below 1 can lose its last worker to a FORGET; it keeps one in every run if
  and only if `max_idle` is at least 1 (`WorkerPool.KeepsAWorker`).
- Ending the session does not wake the main thread, and neither does a worker that detaches itself.
  With nothing more from outside it goes on to end the loop if and only if it is not asleep, or there
  is a post, or a worker outside receive is not about to detach itself (`WorkerPool.MainGoesOn`,
  `WorkerPool.SleepsOnOccurs`).
- `do_write_buf` leaves bytes in the pipe exactly when the size field of a WRITE, be it 0, is smaller
  than the data in the pipe and all of that size was written (`Requests.DoWriteBuf`).
- Bytes read from a pipe and not written are lost by a copy between descriptors
  (`BufCopy.LosingRound`), at most one temporary buffer of them and only then (`BufCopy.Copy`).
- Two goroutines on one connection can store bytes in the wrong order, from every reachable state of an open one
  (`Transfer.SecondGoroutineReorders`); the order is kept in every run if and only if no second one
  joins (`Transfer.OrderKept`).
- Every handler that finishes deletes the marks of its file, so another one for the same file can
  wait for ever; it can still finish if and only if a mark is set or on its way
  (`Transfer.CanFinish`).
- What is appended after a handle was released can be missed by consumers
  (`Transfer.LateAppendIsMissed`).
- `sfs_link` answers generation 0 even for a recycled inode. A lookup said the same of another file if
  and only if the entry was known by generation 0 and its number was reused since
  (`InodeTable.LinkTellsApart`, `InodeTable.RecycledLinkOccurs`); lookups among themselves are
  always told apart (`InodeTable.GenerationTellsApart`).
- An empty write beyond the end moves the published size and not the file. The size is the length of
  the file if and only if every empty write lies within the file that all writes make
  (`PublishedSize.SizeIsLength`).
- The size attribute is printed as unsigned and read back with `strtol`: they are inverse exactly up
  to `LONG_MAX` (`Decimal.PrintThenRead`).
- A download request that does not fit 100 bytes is cut off. It never arrives as it was sent, whatever
  lies behind the buffer, unless the cut is in its number; then that decides
  (`DownloadRequest.RequestArrives`).
- PARALLEL_DIROPS and HANDLE_KILLPRIV are wanted by default and never announced
  (`Init.SilentDefaults`).
- An init callback that raises `max_write` beyond the negotiated buffer leaves a receive buffer that is
  too small for it, and one that sets it to 0 announces 0 pages (`Init.Session.DoInit`,
  `Init.MaxPagesExact`).

## Model

| member | source | states |
|---|---|---|
| Vectors.FlatSkip | f3/fuse/libfuse/lib/buffer.c:279-296 | reading n bytes of a buffer vector and then the rest gives the same stream as reading it all, with pipes emptied on the way |
| Vectors.ScatterAppend | f3/fuse/libfuse/lib/buffer.c:298-338 | writing two pieces along a vector one after the other is writing their concatenation |
| Vectors.ScatterReadBack | f3/fuse/libfuse/lib/buffer.c:298-338 | what was written along a vector of distinct objects is what the vector then reads as |
| Vectors.ChunkCopied | f3/fuse/libfuse/lib/buffer.c:298-338 | copying from the first buffer of one list to the first of another extends the prefix already copied between the whole lists |
| Vectors.ShortChunkEnds | f3/fuse/libfuse/lib/buffer.c:317-334 | a chunk that is short although everything could be read is the end of the stream |
| BufCopy.BufWrite | f3/fuse/libfuse/lib/buffer.c:42-74 | memory to descriptor: exactly the first res bytes are written and nothing else changes; an error changes nothing |
| BufCopy.BufRead | f3/fuse/libfuse/lib/buffer.c:76-108 | descriptor to memory: exactly the first res available bytes arrive and are taken out of a pipe |
| BufCopy.FdToFdRound | f3/fuse/libfuse/lib/buffer.c:130-165 | one round through the temporary buffer: what was read, what of it was written, and that only these differ |
| BufCopy.FdToFd | f3/fuse/libfuse/lib/buffer.c:110-170 | descriptor to descriptor: a prefix is copied; bytes are lost only out of a pipe, and at most a temporary buffer of them; the buffer leaves no trace |
| BufCopy.LosingRound | f3/fuse/libfuse/lib/buffer.c:130-165 | a round that loses any number of bytes of a pipe: outcomes that read and write may have |
| BufCopy.BufSplice | f3/fuse/libfuse/lib/buffer.c:173-228 | splicing gives the same result as copying, falls back to it, and loses nothing when splicing is forced |
| BufCopy.MemCopy | f3/fuse/libfuse/lib/buffer.c:248-259 | memory to memory, overlapping or not, is one simultaneous copy |
| BufCopy.CopyOne | f3/fuse/libfuse/lib/buffer.c:241-269 | every combination of memory and descriptors meets one common contract |
| BufCopy.BufSize | f3/fuse/libfuse/lib/buffer.c:22-35 | the size of a vector is the sum of its buffers |
| BufCopy.BufVec.Advance | f3/fuse/libfuse/lib/buffer.c:279-296 | the cursor moves on by len bytes of the stream and off a buffer that is used up; false exactly at the end |
| BufCopy.CopyChunk | f3/fuse/libfuse/lib/buffer.c:307-334 | one round copies as far as both current buffers go, and either ends the copy or moves a cursor on |
| BufCopy.Copy | f3/fuse/libfuse/lib/buffer.c:298-338 | the result n means: the destination holds the first n bytes of the remaining stream, the source cursor has moved n on and off a first buffer that is used up, even an empty one; an error leaves it on a buffer; nothing else changed; without errors n is as much as there is and fits; it ends even with empty buffers |
| LittleEndian.DecodeEncode | f3/fuse/libfuse/include/fuse_kernel.h:750-762 | fixed-width numbers in memory are read back |
| SendData.MessageAccepted | f3/fuse/libfuse/lib/fuse_lowlevel.c:165-200 | the length field of a reply is its length |
| SendData.MessageLength | f3/fuse/libfuse/lib/fuse_lowlevel.c:165-200 | length, rest of the header and data can be recovered from a reply |
| SendData.Session.SetLen | f3/fuse/libfuse/lib/fuse_lowlevel.c:681-683 | only the length field of the header changes |
| SendData.Session.SendMsg | f3/fuse/libfuse/lib/fuse_lowlevel.c:165-200 | the kernel gets the whole message with the right length, or nothing |
| SendData.Session.GetPipe | f3/fuse/libfuse/lib/fuse_lowlevel.c:558-584 | the thread's pipe is kept or a new, empty one made |
| SendData.Session.ClearPipe | f3/fuse/libfuse/lib/fuse_lowlevel.c:587-594 | the pipe is gone with what it held, and nothing else |
| SendData.Session.ReadBack | f3/fuse/libfuse/lib/fuse_lowlevel.c:597-611 | exactly n bytes of the pipe, header changes included, or an error |
| SendData.Session.Fallback | f3/fuse/libfuse/lib/fuse_lowlevel.c:476-517 | through memory: the kernel gets nothing, or header and a prefix of the stream |
| SendData.Session.SendPipe | f3/fuse/libfuse/lib/fuse_lowlevel.c:803-834 | header and data go from the pipe to the device with the right length, and the pipe is clean |
| SendData.Session.SendFromMemory | f3/fuse/libfuse/lib/fuse_lowlevel.c:767-798 | what the pipe holds and what was gathered besides it are sent as one message, or nothing is; the pipe is clean |
| SendData.Session.SendShort | f3/fuse/libfuse/lib/fuse_lowlevel.c:747-803 | when the pipe took only part of the data, the message still carries all of the stream that can be had |
| SendData.Session.SendSpliced | f3/fuse/libfuse/lib/fuse_lowlevel.c:719-834 | with the header in the pipe, each way on gives the same message and leaves the pipe clean |
| SendData.Session.SendLinked | f3/fuse/libfuse/lib/fuse_lowlevel.c:679-717 | with an empty pipe: the header is linked into it whole, or memory is used, or the pipe is given up, each with the result of SendDataIov |
| SendData.Session.SendDataIov | f3/fuse/libfuse/lib/fuse_lowlevel.c:642-838 | splice refines fallback: on every path the kernel gets nothing or header ++ d, d a prefix of the remaining stream and the length that of d; without errors d is all of it; the pipe is clean afterwards |
| SendData.Gather | f3/fuse/libfuse/lib/fuse_lowlevel.c:498-511 | what remains of a vector, in fresh memory, and no other object touched |
| SendData.Pour | f3/fuse/libfuse/lib/fuse_lowlevel.c:719-723 | what remains of a vector, appended to the pipe; the cursor stands at the rest |
| Requests.TakeFromPipe | f3/fuse/libfuse/lib/fuse_lowlevel.c:2520-2533 | the next n bytes of the pipe and no other object, or an error |
| Requests.Receive | f3/fuse/libfuse/lib/fuse_lowlevel.c:2740-2892 | a positive result is a whole request of the queue, in memory or alone in the pipe; an interrupted receive leaves the pipe clean |
| Requests.MessageAnswers | f3/fuse/libfuse/lib/fuse_lowlevel.c:203-220 | a reply carries its own length and the unique of its request |
| Requests.SendSmall | f3/fuse/libfuse/lib/fuse_lowlevel.c:203-243 | at most one message is sent, and it answers the request |
| Requests.WriteHandler | f3/fuse/f3.cc:1515-1542 | the bytes written are the payload's, at the request's offset of its file, and nothing else changes; the reply says how many |
| Requests.DoWriteBuf | f3/fuse/libfuse/lib/fuse_lowlevel.c:1376-1418 | the file gets a prefix of the payload at the request's offset and the one reply says how long it is, or the error; the pipe is clean afterwards if and only if it is not the case that a size smaller than the payload, 0 included, was written in full from the pipe; if nothing fails, if and only if the size field is not smaller than the payload in the pipe |
| Requests.ReadHandler | f3/fuse/f3.cc:1444-1455 | a READ is answered at most once, with the file's bytes at its offset (all that were asked for and are there, if nothing fails) or an error, and leaves the pipe clean on every path |
| SessionLoop.RestIsCheck | f3/fuse/libfuse/lib/fuse_lowlevel.c:1747-1768 | what the loop does with waiting INTERRUPTs when a request comes is check_interrupt of the step system: the one for the request is taken out, else the oldest, which is to be told EAGAIN |
| SessionLoop.FiledIsInterrupt | f3/fuse/libfuse/lib/fuse_lowlevel.c:1726-1745 | and what it does with an INTERRUPT is its interrupt step |
| SessionLoop.TakeHeader | f3/fuse/libfuse/lib/fuse_lowlevel.c:2555-2573 | the header is read out of the pipe and the rest left there, or the pipe is cleared |
| SessionLoop.Refuse | f3/fuse/libfuse/lib/fuse_lowlevel.c:2672-2677 | a refused request is sent that error and no more, and leaves a clean pipe |
| SessionLoop.AnswerOldest | f3/fuse/libfuse/lib/fuse_lowlevel.c:2628-2636 | the INTERRUPT that check_interrupt gives is answered EAGAIN, and nothing else is sent |
| SessionLoop.Handle | f3/fuse/libfuse/lib/fuse_lowlevel.c:2638-2666 | the handler sees the request as it was sent, and what is sent answers it, an INTERRUPT not at all; the pipe is clean afterwards |
| SessionLoop.Process | f3/fuse/libfuse/lib/fuse_lowlevel.c:2541-2678 | which error a request is refused with before it gets to a handler, or that it gets there as it was sent; what is sent is first EAGAIN to the oldest waiting INTERRUPT, only if none waits for this request, then at most one answer to the request, and exactly one to a refused request, a READ or a WRITE if nothing fails; if nothing fails that EAGAIN is sent whenever one waits and none for this request; which INTERRUPTs wait, which request is kept unanswered and whether INIT has been seen afterwards; the pipe is clean whatever failed |
| SessionLoop.Onwards | f3/fuse/libfuse/lib/fuse_lowlevel.c:2628-2636 | a request dealt with in this way keeps the books: every message answers a request, none twice, and the INTERRUPTs that wait are unanswered, in order |
| SessionLoop.Cycle | f3/fuse/libfuse/lib/fuse_loop.c:26-40 | one round: at most one request is used up, with the outcome of Process, and the next round starts with a clean pipe |
| SessionLoop.Run | f3/fuse/libfuse/lib/fuse_loop.c:19-45 | whole sessions, INIT included: handlers see whole requests that are not refused, in order, none twice and none mixed with another; every message sent answers one of the requests taken, no request is answered twice, those answered at once are answered in order, and those answered late are INTERRUPTs told EAGAIN, in order; without errors handlers see exactly the requests not refused at their time, and every refused request, READ and WRITE is answered |
| Ring.ListAdd | f3/fuse/libfuse/lib/fuse_loop_mt.c:97-104 | a worker, or in the same words a request, joins the circular list at its end, linked both ways |
| Ring.ListDel | f3/fuse/libfuse/lib/fuse_loop_mt.c:106-112 | it leaves it, and the rest stays linked both ways in order |
| WorkerRing.Mt.StartThread | f3/fuse/libfuse/lib/fuse_loop_mt.c:258-293 | the ring and the counters after a thread was started, or could not be |
| WorkerRing.Mt.Section1 | f3/fuse/libfuse/lib/fuse_loop_mt.c:138-160 | the first critical section does the step of the pool it stands for |
| WorkerRing.Mt.Section2 | f3/fuse/libfuse/lib/fuse_loop_mt.c:164-183 | and so does the second |
| WorkerRing.Mt.ExitAndJoin | f3/fuse/libfuse/lib/fuse_loop_mt.c:333-340 | joining from the head ends, empties the ring and joins each worker once, in order |
| WorkerPool.StepKeeps | f3/fuse/libfuse/lib/fuse_loop_mt.c:116-189 | every step keeps the accounts of the pool |
| WorkerPool.Accounting | f3/fuse/libfuse/lib/fuse_loop_mt.c:116-189 | in every run each worker ever created is in the list, detached or joined, one of these only; before exit numavail is the number of workers less those busy with more than a FORGET |
| WorkerPool.Availability | f3/fuse/libfuse/lib/fuse_loop_mt.c:156-182 | with max_idle at least 1 there is a worker and at most max_idle are idle; if threads can be started, at least one is available |
| WorkerPool.KeepsAWorker | f3/fuse/libfuse/lib/fuse_loop_mt.c:156-182 | the pool has a worker in every state of every run before exit if and only if max_idle is at least 1 |
| WorkerPool.ForgetEmpties | f3/fuse/libfuse/lib/fuse_loop_mt.c:164-182 | the run that empties a pool without max_idle |
| WorkerPool.ExitStep | f3/fuse/libfuse/lib/fuse_loop_mt.c:138-142 | after exit nobody is added or takes itself out, and every step brings the end nearer |
| WorkerPool.ExitProgress | f3/fuse/libfuse/lib/fuse_loop_mt.c:306-351 | after exit something can happen as long as a worker is left |
| WorkerPool.Shutdown | f3/fuse/libfuse/lib/fuse_loop_mt.c:306-351 | after exit every run is at most four steps per worker, and where it stops every worker ever created was detached or joined, never both |
| WorkerPool.MainGoesOn | f3/fuse/libfuse/lib/fuse_loop_mt.c:329-331 | when the session has ended and nothing comes in, every run stops soon, and there main has gone on to end the loop if and only if it was not asleep, or there was a post, or a worker was outside receive and not about to detach itself |
| WorkerPool.SleepsOn | f3/fuse/libfuse/lib/fuse_loop_mt.c:164-186 | main sleeps on if and only if there is no post and each worker waits in receive or is busy while max_idle others are available |
| WorkerPool.SleepsOnOccurs | f3/fuse/libfuse/lib/fuse_loop_mt.c:329-331 | the run in which ending the session ends nothing |
| Interrupts.StepKeeps | f3/fuse/libfuse/lib/fuse_lowlevel.c:1688-1768 | every step keeps reference counts, locks, lists and calls in agreement |
| Interrupts.DestroyedOnce | f3/fuse/libfuse/lib/fuse_lowlevel.c:124-145 | a request is destroyed at most once; it is or is being destroyed if and only if it was freed and no handler refers to it |
| Interrupts.NothingDangles | f3/fuse/libfuse/lib/fuse_lowlevel.c:1688-1725 | what a handler or the list refers to is never destroyed or about to be |
| Interrupts.OnlyStrangersWait | f3/fuse/libfuse/lib/fuse_lowlevel.c:1717-1768 | waiting INTERRUPTs have distinct targets, none of them a request that is there |
| Interrupts.CallbackRuns | f3/fuse/libfuse/lib/fuse_lowlevel.c:1692-1712 | how often a request's callbacks have run, in every reachable state in which nobody holds its lock, for any sequence of registrations, NULL included; and what that is for one callback |
| Interrupts.OneInterruptOneCall | f3/fuse/libfuse/lib/fuse_lowlevel.c:2434-2445 | with one callback and one mark it has run exactly once if and only if the mark came before the request was freed |
| Interrupts.LateInterrupt | f3/fuse/libfuse/lib/fuse_lowlevel.c:1692-1712 | from every state in which a handler has found a request and not locked it there is a run that marks the request without a call, because it was freed in between |
| Interrupts.LateInterruptOccurs | f3/fuse/libfuse/lib/fuse_lowlevel.c:1692-1712 | for every request, a whole run with one callback, registered before its one INTERRUPT arrives, that never runs |
| Interrupts.ReleasedAlive | f3/fuse/libfuse/lib/fuse_lowlevel.c:2434-2445 | in every run: the request whose lock fuse_req_interrupt_func is going to release is neither destroyed nor about to be if and only if it was not freed in the meantime or a handler refers to it |
| Interrupts.AnsweredInCallback | f3/fuse/libfuse/lib/fuse_lowlevel.c:2442-2445 | it is destroyed whenever a callback, registered for a marked request that no handler refers to, answers the request |
| Interrupts.AnsweredInCallbackOccurs | f3/fuse/libfuse/lib/fuse_lowlevel.c:2442-2445 | a whole run in which that happens, for every request |
| Interrupts.EveryInterruptOnce | f3/fuse/libfuse/lib/fuse_lowlevel.c:1726-1768 | over every run each INTERRUPT received is being handled, waiting, applied, dropped as a duplicate or answered EAGAIN, and only one of these |
| Interrupts.Find | f3/fuse/libfuse/lib/fuse_lowlevel.c:1692-1693 | a request with that unique, or that there is none on the list |
| Interrupts.FindPending | f3/fuse/libfuse/lib/fuse_lowlevel.c:1717-1721 | a waiting INTERRUPT with that target, or that there is none |
| RequestRing.Se.Search | f3/fuse/libfuse/lib/fuse_lowlevel.c:1692-1716 | following the links of se->list finds the first request with that unique, or the head |
| RequestRing.Se.SearchWaiting | f3/fuse/libfuse/lib/fuse_lowlevel.c:1717-1721 | following the links of se->interrupts finds the first INTERRUPT with that target, or the head |
| RequestRing.Se.Check | f3/fuse/libfuse/lib/fuse_lowlevel.c:1747-1768 | check_interrupt takes the INTERRUPT for the request out of the ring, or the oldest one to be answered EAGAIN |
| RequestRing.Se.ArriveLocked | f3/fuse/libfuse/lib/fuse_lowlevel.c:2628-2633 | check_interrupt and list_add_req do the arrival step on the two rings, and keep both linked |
| RequestRing.Se.InterruptLocked | f3/fuse/libfuse/lib/fuse_lowlevel.c:1726-1745 | do_interrupt does the interrupt step on the two rings |
| RequestRing.Se.FreeLocked | f3/fuse/libfuse/lib/fuse_lowlevel.c:130-145 | fuse_free_req does the freeing step and says whether the request is to be destroyed |
| Transfer.StepKeeps | f3/client-server/src/server/server.go:117-193 | every step of producer, server and clients keeps each connection in agreement with its file |
| Transfer.ConsumerSeesProducer | f3/client-server/src/client/client.go:264-280 | in every reachable state local file ++ bytes in hand ++ bytes in flight is what the local file held before ++ the producer's file up to the server's position; a local file that started empty is a prefix of the producer's |
| Transfer.ClosedMeansComplete | f3/client-server/src/server/server.go:143-192 | a connection is closed only after the whole file was sent, for any number of handlers deleting the marks, if nothing was appended after a release; a client that saw the end then has all of it |
| Transfer.LateAppendIsMissed | f3/client-server/src/server/server.go:177-186 | everything has been sent at the moment a connection is closed; in every run after that it stays complete if and only if nothing is appended to the file |
| Transfer.LocalOnlyGrows | f3/client-server/src/client/client.go:142-154 | over every run local files and producer's files only grow |
| Transfer.PollsSeeProducer | f3/fuse/f3.cc:1471-1501 | from any moment to a later one a local file that started empty grows, and stays a prefix of what the producer has written |
| Transfer.Starved | f3/client-server/src/server/server.go:188-192 | with no mark in sight and no new done message a handler waits in every run |
| Transfer.CanFinish | f3/client-server/src/server/server.go:143-192 | a waiting handler can still close its connection without a new done message if and only if a mark under either spelling is set or on its way |
| Transfer.SecondGoroutineReorders | f3/client-server/src/client/client.go:249-280 | from every reachable state of a connection that is open and not yet closed by the server, a second goroutine leads in some run to a local file with bytes in the wrong order |
| Transfer.OrderKept | f3/client-server/src/client/client.go:249-280 | from such a state a local file stays a prefix of the producer's in all runs in which no second goroutine joins, and in some run after one has it does not |
| Streaming.Stream.CopyBuffer | f3/client-server/src/server/server.go:145-149 | copying to the end of a file that was released when the copy began sends all of it |
| Streaming.Stream.HandleConnection | f3/client-server/src/server/server.go:140-193 | the handler sends a prefix of the file whatever the others do in between; closing means all of it was sent and its marks are gone |
| ConsumerRead.SfsRead | f3/fuse/f3.cc:1457-1513 | over every run of the transfer, with fstatat failing at will: a read returns the producer's bytes as far as they go; one that ends below the published size, does not time out and whose first fstatat succeeds returns all of them; it polls at most 24 times, and only then |
| ConsumerRead.OpenAndRead | f3/fuse/f3.cc:1352 | end to end, for all writes that make the file: a read returns the producer's bytes as far as they go; one that ends within the file, below LONG_MAX, does not time out and whose first fstatat succeeds returns all of them, the target being what was published and read back; one that ends at or beyond the end of the file does not wait if every empty write lies within it |
| ConsumerRead.SeesProducer | f3/fuse/f3.cc:1471-1501 | at each moment at which a reader looks, the local file is a prefix of what the producer has written in the end |
| ConsumerRead.PreadOfPrefix | f3/fuse/f3.cc:1444-1455 | reading from a prefix of a file gives a prefix of what the file would give |
| InodeTable.StepCounts | f3/fuse/libfuse/example/passthrough_hp.cc:304-380 | every step keeps counts, addresses and numbers in agreement, and none aborts |
| InodeTable.StepKeeps | f3/fuse/libfuse/example/passthrough_hp.cc:304-572 | and what lookups have told the kernel |
| InodeTable.CountsAgree | f3/fuse/libfuse/example/passthrough_hp.cc:538-559 | in every run no abort is reached and no dangling node id followed: each node id the kernel holds is a live entry filed under its own number, whose nlookup is the kernel's count plus the lookups that never reached it |
| InodeTable.ErasedExactly | f3/fuse/libfuse/example/passthrough_hp.cc:547-555 | a forget erases its own entry and no other, if and only if the kernel gives back all it holds and no lookup went astray |
| InodeTable.LostLookupStays | f3/fuse/libfuse/example/passthrough_hp.cc:507-535 | a lookup that never reached the kernel, as the one of unlink, keeps its entry for good |
| InodeTable.UndoCounts | f3/fuse/libfuse/example/passthrough_hp.cc:704-715 | looking up an entry that does not fit and forgetting it leaves all counts as they were, and no entry behind |
| InodeTable.GenerationTellsApart | f3/fuse/libfuse/example/passthrough_hp.cc:335-377 | while an entry lives, two lookups that give one node id and generation found the same file, in every run, however often the number was reused and whatever was linked |
| InodeTable.LinkTellsApart | f3/fuse/libfuse/example/passthrough_hp.cc:451-481 | the generation 0 of a link is what a lookup said of another file if and only if the entry was known by generation 0 and its number has been reused since the entry was made |
| InodeTable.RecycledLinkCollides | f3/fuse/libfuse/example/passthrough_hp.cc:451-481 | the run that gets there, for every entry that was looked up and is not open |
| InodeTable.RecycledLinkOccurs | f3/fuse/libfuse/example/passthrough_hp.cc:451-481 | and one from the start, for every number |
| InodeMap.Fs.DoLookup | f3/fuse/libfuse/example/passthrough_hp.cc:335-380 | the entry is found or made and taken as the step says; all other objects are as before |
| InodeMap.Fs.SfsLookup | f3/fuse/libfuse/example/passthrough_hp.cc:383-398 | sfs_lookup does the lookup step, delivered or not |
| InodeMap.Fs.SfsLink | f3/fuse/libfuse/example/passthrough_hp.cc:451-481 | sfs_link does the link step |
| InodeMap.Fs.SfsUnlink | f3/fuse/libfuse/example/passthrough_hp.cc:507-535 | sfs_unlink does the unlink step: a file that is not open loses its descriptor and gets the next generation, and the lookup is kept |
| InodeMap.Fs.ForgetOne | f3/fuse/libfuse/example/passthrough_hp.cc:538-559 | neither abort is taken for an object in the table, the count is lowered, and exactly the own entry goes when it is 0 |
| InodeMap.Fs.SfsForget | f3/fuse/libfuse/example/passthrough_hp.cc:561-564 | sfs_forget does the forget step |
| InodeMap.Fs.LookupAndForget | f3/fuse/libfuse/example/passthrough_hp.cc:704-715 | do_readdir with an entry that does not fit does the undo step |
| InodeMap.Fs.SfsForgetMulti | f3/fuse/libfuse/example/passthrough_hp.cc:567-572 | the loop does the forgets one after the other, in any order and with repetitions; the kernel's counts go down by their sums, and no object is used after it was erased |
| Dirent.Align | f3/fuse/libfuse/include/fuse_kernel.h:765-766 | the least multiple of 8 that is not smaller |
| Dirent.ParseRecords | f3/fuse/libfuse/lib/fuse_lowlevel.c:356-384 | parsing a buffer of records gives back number, offset, type, name and fuse_entry_out of each, in order |
| Dirent.RecordsAligned | f3/fuse/libfuse/include/fuse_kernel.h:764-778 | every record starts at a multiple of 8 |
| Dirent.AddDirentry | f3/fuse/libfuse/lib/fuse_lowlevel.c:266-291 | the size of the record, which replaces that part of the buffer exactly if it fits and otherwise leaves the buffer alone |
| Readdir.SeekBack | f3/fuse/f3.cc:1128-1133 | seeking to the offset of an entry gets behind it |
| Readdir.DirHandle.Read | f3/fuse/f3.cc:1138-1148 | the recorded offset stays the position of the stream |
| Readdir.AddItem | f3/fuse/f3.cc:1148-1180 | one item: it is skipped, or stored whole behind the others, or does not fit and its lookup is given back, or ends the page |
| Readdir.DirHandle.DoReaddir | f3/fuse/f3.cc:1104-1207 | the reply depends on directory, offset and size only, not on what the handle was used for; it fits the size; an error is sent exactly if there is no memory or the first entry cannot be read or looked up; the lookups kept are those of the entries in the reply |
| Readdir.PageThenRest | f3/fuse/f3.cc:1148-1176 | what can be read after a page is what the page left out, though the stream has moved past an entry that did not fit |
| Readdir.ServedInOrder | f3/fuse/f3.cc:1104-1207 | for all request sizes the pages are the entries in order, none left out and none twice |
| Readdir.PageMoves | f3/fuse/f3.cc:1160-1180 | a page is empty if and only if nothing is left or the next entry is larger than the request |
| Readdir.ServedAll | f3/fuse/f3.cc:1104-1207 | with room for the next entry in each request, as many requests as entries give the whole directory |
| Readdir.AllAreThere | f3/fuse/f3.cc:1098-1150 | if nothing fails that is one entry for each item except dot and dot-dot, in order |
| Readdir.ReplyParses | f3/fuse/f3.cc:1158-1203 | what the kernel parses out of a reply is the page |
| Readdir.KindKept | f3/fuse/f3.cc:1167-1169 | a type survives the way through st_mode if and only if it is below 16 |
| Decimal.PrintThenRead | f3/fuse/f3.cc:449-492 | a printed size is read back if and only if it is at most LONG_MAX, and as LONG_MAX otherwise |
| Decimal.SizeFits | f3/fuse/f3.cc:449-452 | a size_t takes at most 20 of the 23 characters |
| PublishedSize.SizeIsFurthest | f3/fuse/f3.cc:1526-1540 | the size kept is the furthest end of all writes |
| PublishedSize.AnyOrder | f3/fuse/f3.cc:1532-1537 | whatever their order |
| PublishedSize.SizeTracksFile | f3/fuse/f3.cc:1526-1540 | one write keeps it equal to the file's length if and only if it is not an empty one beyond the end |
| PublishedSize.LengthIsFurthest | f3/fuse/f3.cc:1515-1524 | the file is as long as the furthest end of the writes that carry something |
| PublishedSize.SizeIsLength | f3/fuse/f3.cc:1526-1540 | over all sequences of writes the size is at least the length of the file, and exactly that if and only if every empty write lies within the file in the end |
| PublishedSize.TargetIsLength | f3/fuse/f3.cc:1352 | the consumer's target is never below the length of the producer's file, capped at LONG_MAX; it is that length if and only if that is at most LONG_MAX and every empty write lies within the file, or it is LONG_MAX itself |
| PublishedSize.UnsetTarget | f3/fuse/f3.cc:480-488 | without an attribute, or with one that does not start with a digit, the target is 0 |
| PublishedSize.IdInode.DoWriteBuf | f3/fuse/f3.cc:1526-1540 | file and size after each write are those of all writes so far |
| PublishedSize.IdInode.Publish | f3/fuse/f3.cc:1400-1405 | the attribute holds the size after all writes, and read back it is the length of the file if and only if TargetIsLength says so |
| DownloadRequest.FirstsKeep | f3/client-server/src/client/client.go:421-433 | the list without repetitions has the same elements in the order of their first occurrence |
| DownloadRequest.GetUniqueServers | f3/client-server/src/client/client.go:421-433 | the loop computes it for the trimmed names |
| DownloadRequest.Receive | f3/client-server/src/client/client.go:220-243 | the handler's parse of a stream, with the messages it refuses |
| DownloadRequest.SplitJoin | f3/client-server/src/client/client.go:232-242 | splitting a joined list gives it back |
| DownloadRequest.MessageArrives | f3/client-server/src/client/client.go:222-243 | a message is parsed as its path and servers, whatever its number and whatever follows it on the stream |
| DownloadRequest.PrintedArrives | f3/client-server/src/client/client.go:222-243 | so is a printed request |
| DownloadRequest.CutInPath | f3/fuse/uds_client.cc:61-72 | with the terminator in the path a request does not arrive as sent, whatever bytes follow |
| DownloadRequest.CutInServers | f3/fuse/uds_client.cc:61-72 | nor with the terminator in the servers |
| DownloadRequest.Completed | f3/fuse/uds_client.cc:61-72 | with the terminator in the number there are bytes that complete it |
| DownloadRequest.RequestArrives | f3/fuse/uds_client.cc:61-78 | a request that fits the 100-byte buffer arrives as sent, whatever follows; one that does not never does, whatever bytes behind the buffer are written after the terminator, if the cut is in the path or the servers; and it may if and only if it is in the number |
| DownloadRequest.MalformedRefused | f3/client-server/src/client/client.go:232-239 | fewer than three parts are refused |
| Init.AnnouncedWasOffered | f3/fuse/libfuse/lib/fuse_lowlevel.c:2068-2095 | no flag is announced that the kernel did not offer, although two capabilities have each other's bit |
| Init.SilentDefaults | f3/fuse/libfuse/lib/fuse_lowlevel.c:2005-2011 | two capabilities that are wanted by default make no difference to the reply |
| Init.PagesExact | f3/fuse/libfuse/lib/fuse_lowlevel.c:2059-2062 | max_pages is the least number of pages that hold max_write |
| Init.MaxPagesExact | f3/fuse/libfuse/lib/fuse_lowlevel.c:2059-2062 | the field of the reply is that number if and only if max_write is positive and the number fits 16 bits |
| Init.FinishGood | f3/fuse/libfuse/lib/fuse_lowlevel.c:2056-2110 | flags, pages and background limits of the reply |
| Init.Session.Propose | f3/fuse/libfuse/lib/fuse_lowlevel.c:1911-2029 | capabilities and limits before the init callback: wanted within capable, buffer within bounds, max_write fitting it |
| Init.Session.DoInit | f3/fuse/libfuse/lib/fuse_lowlevel.c:1894-2132 | whatever the callback does: exactly when INIT is refused or asked again; otherwise flags within those of the kernel plus BIG_WRITES unless it changed the capabilities, bufsize = max_write + 4096 if and only if it did not raise max_write beyond the buffer, max_pages then exact and at most 256 if it is positive, congestion_threshold at most max_background below 65536 |

## Left out

- BufCopy.BufSize: the saturation at SIZE_MAX, and its wrap-around when more buffers follow, because sizes are unbounded numbers.
- Integer widths of `off_t` and the lookup counts, except where a row names them: the wrap-around of `off + size` and of a generation are not modelled.
- BufCopy.FdToFd: the allocation of the temporary buffer does not fail; the code only prints a message if it does.
- SendData.Session.SendDataIov: whether the pipe is or can be made large enough is an arbitrary answer, so the size heuristics behind it are not modelled.
- SessionLoop.Process: handlers other than READ and WRITE send at most one arbitrary reply before they return, without touching the pipe, or keep the request; CUSE sessions are not modelled.
- SessionLoop.Run: the answers that other threads send later to requests a handler has kept, and callbacks of INTERRUPTs for them, which are in `Interrupts`; the size of the receive buffer does not change; NOTIFY_REPLY requests and WRITEs whose size field differs from their data are excluded, as the kernel does not send the latter.
- WorkerRing.Mt.Section2: channel reference counts, buffers and `pthread_detach` itself are not modelled, only who is detached.
- Interrupts.CallbackRuns: the data pointer of a callback.
- Transfer.ClosedMeansComplete: connections do not break and disks do not fill up; a name is the same file with or without leading slashes, and other forms that `path.Join` cleans are not modelled.
- `downloadMore`, `readahead` and `putServer` in `client.go` are not called by the handler, and `getServer` keeps the slowest server where its comment says fastest and need not return.
- ConsumerRead.SfsRead: reads that end at or beyond the published size do not wait in the program either, so nothing but their prefix is claimed.
- InodeTable.CountsAgree: the root inode, which is not in the table, and races between lookups and forgets of several threads; the driver runs single-threaded.
- ID inodes of `f3.cc`, whose key fields are overwritten after they were filed (lines 774-775), so that erasing by key does not hold of them; the table is that of `passthrough_hp.cc`.
- Readdir.DirHandle.DoReaddir: the directory, and where it fails, does not change while it is read, and offsets are those it reported.
- DownloadRequest.RequestArrives: paths and servers contain no NUL, as C strings do not; `TrimSpace` knows ASCII blanks only.
- Init.Session.DoInit: the sizes of the older reply formats, `time_gran` and the session's error state after a refusal.
- The Container Storage Interface driver, Kubernetes lookups, option parsing, CUSE, the high-level API and `fuse.c`.
