# Verified model of the aesdchar driver and the aesdsocket server

This Dafny project models three connected parts of the repository and proves
what they promise.

**The character driver.** `CircularBuffer` is the ring of
`aesd-circular-buffer.c`: a value (`Ring`) and the structure that the C
functions update in place (`RingBuffer`). `DeviceSpec` is the driver without
blocks, slots and locks: everything ever committed, and the bytes still pending.
`Histories` is about sequences of calls on that device. `CharDevice` has
`aesd_write`, `aesd_read` and `aesd_cleanup_module` as methods on the device
structure, over an explicit kernel heap (`KernelHeap`). `DriverSteps` takes the
same two functions apart into single operations on locks, blocks, the pending
entry and the ring, so that any number of calls can interleave; every operation
that can fail may fail. `DriverMemory` and `DriverInvariant` show what each step
keeps, and `DriverTheorems` what follows for every run.

**The queue macros.** `TailQueue` has the TAILQ macros on heap objects, with the
back-link of a head or an element as the link that owns the incoming cell, so
that TAILQ_LAST and TAILQ_PREV read an element as a head. `WorkerList` has the
SLIST macros on the server's worker entries. `XorQueue` has the XSIMPLEQ macros
over a memory of 64-bit words, with the SIMPLEQ macros as their reference.

**The socket server.** `Worker` has `receive_data` and `send_response` on an
output that is a plain file or the device (`Output`). `Server` has
`accept_client`, `check_workers`, `srv_shutdown` and the run loop.
`ServerRun` lets any number of workers and timer ticks interleave over the
output lock. `ServerInvariant` shows what each step keeps, `Attribution` that what
stands in the output is what each thread's own steps have written, `DeviceStream`
what that means for the device, `WorkerOutcomes` which workers respond, and
`ServerTheorems` what follows for every run.

`dafny verify dfyconfig.toml` verifies everything.

## Conventions

- Addresses are natural numbers, `NULL` is 0, and a block is live while its
  address is in the heap. Using or freeing a dead block, and unlocking a mutex
  that is not held, make `Mem.safe` false; every run keeps it true.
- What the environment decides is a parameter: the address that `kzalloc`
  returns (`NULL` if it fails), whether a lock is interrupted or a user copy
  fails, what `recv` yields, what `write` returns, when a flag that another
  thread sets is found set.
- The ring has any capacity of at least one slot; the driver's is
  `AESDCHAR_MAX_WRITE_OPERATIONS_SUPPORTED`. Its offsets are stored in
  `uint8_t`, which holds them for up to 256 slots.
- The header comment of `aesd_circular_buffer_add_entry` says that the oldest
  entry is copied to an `out_entry`; the code returns its pointer instead, and
  so does the model.
- One history event, `Take`, marks where a call takes effect: a read when it
  copies (or finds the end), a write when it adds to the ring, when it finds that
  its bytes end no entry, or when it fails.

## Model

| member | source | states |
|---|---|---|
| CircularBuffer.AddRefinesPush | aesd-char-driver/aesd-circular-buffer.c:70-85 | adding keeps the ring invariant and is a push on a bounded queue that drops its oldest element; the returned pointer is the oldest entry's exactly when one is overwritten; full stays full |
| CircularBuffer.RingHoldsLastEntries | aesd-char-driver/aesd-circular-buffer.c:70-93 | after any sequence of adds to a new ring of any capacity n it holds the last n entries added, and is full exactly if there were n |
| CircularBuffer.InitIsEmpty | aesd-char-driver/aesd-circular-buffer.c:90-93 | an initialised ring satisfies the invariant and stands for no entries |
| CircularBuffer.LookupIsFlatIndexing | aesd-char-driver/aesd-circular-buffer.c:31-57 | the slot scan finds nothing exactly at or past the total size; otherwise the stored entry and offset of that byte of the concatenation, never an empty slot |
| CircularBuffer.FlatIndexUnique | aesd-char-driver/aesd-circular-buffer.c:22-29 | entry and offset of a position are unique |
| CircularBuffer.SlotsVisitedOnce | aesd-char-driver/aesd-circular-buffer.c:38-55 | the scan visits no slot twice |
| CircularBuffer.RingBuffer.constructor | aesd-char-driver/aesd-circular-buffer.c:90-93 | the structure after initialisation is the empty ring |
| CircularBuffer.RingBuffer.AddEntry | aesd-char-driver/aesd-circular-buffer.c:70-85 | in place: the new ring, the pointer returned, and the bounded queue it stands for |
| CircularBuffer.RingBuffer.FindEntryOffsetForFpos | aesd-char-driver/aesd-circular-buffer.c:31-57 | the do-while loop with `size_t` sums returns what the lookup specifies |
| DeviceSpec.ReadAtIsSlice | aesd-char-driver/main.c:65-89 | a read by position is a slice of the ring's concatenation, at most count bytes, empty exactly at the end or for count 0 |
| DeviceSpec.ReadAtIsRestOfEntry | aesd-char-driver/main.c:77-80 | a read from within an entry returns the rest of that entry, or as much as was asked for |
| DeviceSpec.HistoryIsEvictedThenContent | aesd-char-driver/main.c:157-168 | all bytes ever committed are those dropped followed by those in the ring |
| Histories.StreamConservation | aesd-char-driver/main.c:113-168 | over every legal history: committed entries and pending bytes are the data of exactly the writes that reached the size update, also those that then returned -EINTR; every ring entry is nonempty and ends in a newline; the ring has min(n, committed) entries |
| Histories.AbsolutePosition | aesd-char-driver/main.c:66-89 | a read of n bytes at p when E bytes had been dropped returned bytes E+p to E+p+n of everything committed, now and after any continuation |
| Histories.FramingIsSplitting | aesd-char-driver/main.c:127-168 | entries are at all times the newline split of the written stream if and only if every effective write has a newline at most as its last byte, and then commits it |
| Histories.ChunkingIndependence | aesd-char-driver/main.c:127-168 | clean write sequences with the same concatenation leave the same device |
| Histories.SplitAppend | aesd-char-driver/main.c:146-168 | splitting a stream into lines can go on from the unfinished rest |
| Histories.SplitIsWhole | aesd-char-driver/main.c:157-168 | the lines and the rest are the whole stream |
| Histories.ReadSession | aesd-char-driver/main.c:66-89 | reads from position 0 with any positive counts return the content in order without gap or repeat, and as many reads as bytes reach the end |
| KernelHeap.LookupReads | aesd-char-driver/main.c:65-86 | lookup and copy from the block found read the content by position, within the block |
| DriverMemory.FreeSlotsKeeps | aesd-char-driver/main.c:227-231 | the cleanup loop up to any slot has freed exactly the earlier slots' blocks; the next slot's is still live |
| DriverMemory.CleanupLeavesPending | aesd-char-driver/main.c:225-232 | the whole loop frees no block twice and leaves exactly the pending block with its bytes |
| DriverInvariant.StepRules | aesd-char-driver/main.c:51-176 | how every step of either function uses the two locks, and that each call takes effect once, with the result that it returns |
| DriverInvariant.ReadIsAllowed | aesd-char-driver/main.c:58-95 | each step of a read leaves the memory alone and returns only what the sequential device allows |
| DriverInvariant.WriteIsKept | aesd-char-driver/main.c:112-175 | each step of a write, failing or not, keeps ownership (allocation, handing over, drop), ring bytes and pending bytes, and takes effect as the sequential device does |
| DriverInvariant.FollowKeeps | aesd-char-driver/main.c:51-176 | every step of every interleaving keeps the whole invariant |
| DriverInvariant.RunKeeps | aesd-char-driver/main.c:51-219 | the invariant holds in every reachable state from module initialisation |
| DriverTheorems.Linearizable | aesd-char-driver/main.c:51-176 | every run is a legal sequential history; the ring's blocks always hold that history's window, and the pending entry its pending bytes whenever no write is in progress; each call has its three events, in order, with one result |
| DriverTheorems.ReturnedTookEffect | aesd-char-driver/main.c:92-95 | a call that returned took effect before, with the result returned |
| DriverTheorems.ReturnedIsRecorded | aesd-char-driver/main.c:51-176 | a call that returned has exactly three events in the history, made, took effect, returned, in this order and with its result |
| DriverTheorems.NoFailureNoError | aesd-char-driver/main.c:77-90 | a call none of whose steps failed returned data (a read) or the full count (a write) |
| DriverTheorems.FailureDecides | aesd-char-driver/main.c:58-62 | a step that failed decides the result by where it was: -ERESTARTSYS at the first lock, -ENOMEM at the allocation, -EFAULT at a user copy, -EINTR at buf_lock in a write |
| DriverTheorems.RealTimeOrder | aesd-char-driver/main.c:51-176 | a call that returned before another was made took effect before it |
| DriverTheorems.RunConservation | aesd-char-driver/main.c:113-168 | stream conservation and window in every reachable state of any interleaving |
| DriverTheorems.RunAbsolutePosition | aesd-char-driver/main.c:66-89 | every successful read of any interleaving returned the bytes at its absolute position |
| DriverTheorems.RunFraming | aesd-char-driver/main.c:127-168 | in every run the entries are at all times the newline split of the bytes written if and only if every effective write is clean; then the ring's blocks and the pending entry hold those lines |
| DriverTheorems.RunChunkingIndependence | aesd-char-driver/main.c:127-168 | two clean runs that write the same bytes, cut in any way, hold the same lines |
| DriverTheorems.EveryBlockHasOneOwner | aesd-char-driver/main.c:112-168 | in every reachable state each live block is held by exactly one of: a slot, the pending entry, the writer's local; and what they hold is live |
| DriverTheorems.CleanupAfterRun | aesd-char-driver/main.c:225-232 | after any run whose calls have returned, cleanup frees every slot's block once, never a dead one, and leaves only the pending entry's block |
| DriverTheorems.ReaderHasLiveBlock | aesd-char-driver/main.c:67-82 | between lookup and copy a reader's slot holds a live block covering the bytes wanted |
| DriverTheorems.LockSafety | aesd-char-driver/main.c:105-109 | a writer in the ring holds both locks, having taken entry_lock first; readers never hold entry_lock; a call that returned holds neither |
| DriverTheorems.NoDeadlock | aesd-char-driver/main.c:58-62 | while a call is unfinished some call can take a step without failure |
| DriverTheorems.CallsAreBounded | aesd-char-driver/main.c:51-176 | in every run each read takes at most 4 and each write at most 13 steps |
| CharDevice.AesdDev.constructor | aesd-char-driver/main.c:199-219 | the device after initialisation is the empty device |
| CharDevice.AesdDev.Write | aesd-char-driver/main.c:98-176 | the count exactly if nothing fails, and each error exactly if its failure is the first; the bytes are kept exactly on success and -EINTR, and committed with what was pending exactly on success with a newline at the end |
| CharDevice.AesdDev.ReadLocked | aesd-char-driver/main.c:65-90 | lookup and copy return the content at the position, up to the end of its entry |
| CharDevice.AesdDev.Read | aesd-char-driver/main.c:51-96 | -ERESTARTSYS exactly for an interrupted lock, -EFAULT exactly for a failed copy before the end, otherwise the content at the position; the file position moves by the bytes read only on success |
| CharDevice.AesdDev.Cleanup | aesd-char-driver/main.c:225-232 | in place: each slot's block is live when freed; afterwards only the pending block is left |
| TailQueue.LinkedUnique | server/include/aesdsocket/queue.h:408-421 | the links determine the sequence of elements |
| TailQueue.LastIsLast | server/include/aesdsocket/queue.h:429-430 | TAILQ_LAST is the last element, or NULL on an empty queue |
| TailQueue.PrevIsPredecessor | server/include/aesdsocket/queue.h:432-433 | TAILQ_PREV is the previous element, or NULL for the first |
| TailQueue.Init | server/include/aesdsocket/queue.h:463-466 | the empty queue |
| TailQueue.InsertHead | server/include/aesdsocket/queue.h:468-476 | the element before the others |
| TailQueue.InsertTail | server/include/aesdsocket/queue.h:478-483 | the element after the others |
| TailQueue.InsertAfter | server/include/aesdsocket/queue.h:485-493 | the element behind a listed one |
| TailQueue.InsertBefore | server/include/aesdsocket/queue.h:495-500 | the element before a listed one, without access to the head |
| TailQueue.Remove | server/include/aesdsocket/queue.h:502-511 | the others in order; the element's own links stay |
| TailQueue.Replace | server/include/aesdsocket/queue.h:513-523 | the new element in the old one's place |
| TailQueue.Concat | server/include/aesdsocket/queue.h:525-532 | all elements in the first queue, none in the second |
| TailQueue.Foreach | server/include/aesdsocket/queue.h:437-440 | visits the elements in order |
| TailQueue.ForeachReverse | server/include/aesdsocket/queue.h:449-452 | visits all elements, the i-th from the end at turn i |
| XorQueue.OnMemoryRefines | server/include/aesdsocket/queue.h:288-315 | each simple queue macro on memory is the operation on the sequence of elements, tail cell included |
| XorQueue.AllOnMemoryRefines | server/include/aesdsocket/queue.h:283-315 | so is every sequence of them |
| XorQueue.OnElementsMoves | server/include/aesdsocket/queue.h:288-315 | where each operation puts or takes its element, all others staying in order |
| XorQueue.Xor | server/include/aesdsocket/queue.h:343-344 | the bitwise exclusive or of pointer and cookie |
| XorQueue.CookieShows | server/include/aesdsocket/queue.h:343-344 | two cookies never encode a pointer in the same way |
| XorQueue.StoredBits | server/include/aesdsocket/queue.h:370-402 | a cell in which a pointer has been stored holds its bits XORed with the cookie's |
| XorQueue.XorHead.constructor | server/include/aesdsocket/queue.h:364-368 | the head holds the cookie and the encoded address of its first cell; decoded it is the empty simple queue, for any cookie |
| XorQueue.XorHead.InsertHead | server/include/aesdsocket/queue.h:370-375 | decoded, it is SIMPLEQ_INSERT_HEAD; in memory, the pointer behind the insertion is copied encoded as it is, and each new pointer is stored XORed with the cookie |
| XorQueue.XorHead.InsertTail | server/include/aesdsocket/queue.h:377-381 | decoded, it is SIMPLEQ_INSERT_TAIL; in memory, the tail address is decoded with the cookie, and each new pointer is stored XORed with it |
| XorQueue.XorHead.InsertAfter | server/include/aesdsocket/queue.h:383-388 | decoded, it is SIMPLEQ_INSERT_AFTER; in memory, the pointer behind the insertion is copied encoded as it is, and each new pointer is stored XORed with the cookie |
| XorQueue.XorHead.RemoveHead | server/include/aesdsocket/queue.h:390-394 | decoded, it is SIMPLEQ_REMOVE_HEAD; in memory, the removed element's link is copied encoded as it is, and a new tail address is stored XORed with the cookie |
| XorQueue.XorHead.RemoveAfter | server/include/aesdsocket/queue.h:396-402 | decoded, it is SIMPLEQ_REMOVE_AFTER; in memory, the removed element's link is copied encoded as it is, and a new tail address is stored XORed with the cookie |
| XorQueue.XorHead.Foreach | server/include/aesdsocket/queue.h:351-354 | visits the elements in order, whatever the cookie |
| XorQueue.XorHead.Perform | server/include/aesdsocket/queue.h:364-402 | after any sequence of operations the decoded memory is the simple queue's |
| XorQueue.CookieIndependent | server/include/aesdsocket/queue.h:343-402 | two cookies and the same operations give the same decoded memory, elements and tail cell; either raw memory is that one encoded, and with different cookies every cell differs |
| WorkerList.WorkerSlist.InsertHead | server/include/aesdsocket/queue.h:135-138 | the entry before the others |
| WorkerList.WorkerSlist.Remove | server/include/aesdsocket/queue.h:148-160 | the scan from the head ends, and takes out exactly the given entry; it reads links only of entries that are not freed (`WorkerEntry.Next` requires it) |
| WorkerList.WorkerEntry.Join | server/include/aesdsocket/aesd_worker.h:134-139 | returns after the thread has ended |
| WorkerList.WorkerEntry.Delete | server/include/aesdsocket/aesd_worker.h:105-109 | only for an entry that is not freed and whose thread has ended |
| Server.KeepExactly | server/src/aesd_server.c:168-180 | of distinct entries exactly those found exited are deleted, exactly the others kept |
| Server.KeptBefore | server/src/aesd_server.c:168-180 | kept entries stay in their order |
| Server.AesdServer.AcceptClient | server/src/aesd_server.c:143-160 | a started worker is listed first |
| Server.AesdServer.CheckWorkers | server/src/aesd_server.c:168-180 | entry by entry: it is newly joined and deleted if and only if it was found exited, and otherwise still listed, in the old order; nothing else moves; both loops end |
| Server.ListingStep | server/src/aesd_server.c:341-353 | which clients are listed and which done, round by round: an accepted client is listed first, then the list is checked |
| Server.AesdServer.Shutdown | server/src/aesd_server.c:203-212 | every listed worker is told to stop, joined and deleted; the list is empty |
| Server.AesdServer.Run | server/src/aesd_server.c:341-353 | after any rounds every started worker has been joined once, after its thread ended, and freed; there are as many as accepted clients, and they were done in the order in which the rounds found them exited, the rest at shutdown |
| Output.ReadFromIsSlice | server/src/aesd_worker.c:99-106 | reading on from a position gives the next slice of file or device, empty exactly at the end |
| Worker.PacketReassembly | server/src/aesd_worker.c:31-61 | under every chunking of a NUL-free stream, what is written is the first line but for NULs, and exactly it if and only if every earlier chunk filled the buffer |
| Worker.ShortChunkIsPadded | server/src/aesd_worker.c:33-60 | for the chunks "a" and "b\n" and a buffer of 4 bytes the line is not what is written |
| Worker.CompletedIsPacket | server/src/aesd_worker.c:31-61 | the writes of a completed loop are nonempty and newline-free but for the last, which ends in its only newline |
| Worker.PacketIsLine | server/src/aesd_worker.c:47-53 | their concatenation has its only newline at the end |
| Worker.CompletedEnds | server/src/aesd_worker.c:33-60 | the loop completes exactly if some turn receives and writes a newline and none before it stops, fails or has one |
| Worker.WriteCallsAre | server/src/aesd_worker.c:33-60 | also of a loop that fails or is stopped: one write for each turn up to the last, of the line or the whole buffer |
| Worker.PortionMeans | server/src/aesd_worker.c:44-53 | what is written for a chunk is its first line, or the chunk and NULs up to the buffer size |
| Worker.StreamIsChunks | server/src/aesd_worker.c:37-42 | the client's stream is the concatenation of the chunks up to the one with the newline |
| Worker.PacketIsOneEntry | server/src/aesd_worker.c:31-61 | on the device they add exactly one entry: what was pending, then the packet |
| Worker.PacketIsAppended | server/src/aesd_worker.c:31-61 | in a plain file they append the packet |
| Worker.AesdWorker.BytesToWrite | server/src/aesd_worker.c:44-53 | up to the chunk's first newline, or the whole buffer |
| Worker.AesdWorker.ReceiveTurn | server/src/aesd_worker.c:33-60 | one turn: what is written, when it is the last one, when it fails |
| Worker.AesdWorker.ReceiveData | server/src/aesd_worker.c:17-72 | the output after all turns; true exactly if the output was opened, a newline received and written, and no shutdown found |
| Worker.AesdWorker.SendResponse | server/src/aesd_worker.c:83-124 | what is sent is a prefix of the stored content; it succeeds, and then all has been sent, exactly if the output was opened and none of the turns it takes to reach the end fails or finds shutdown set; the loop ends |
| Worker.AesdWorker.RunWorker | server/src/aesd_worker.c:177-189 | a response is sent exactly if the packet was completed, nothing failed and no shutdown was found, and is the stored content; the exited flag is set |
| ServerInvariant.FollowKeeps | server/src/aesd_worker.c:21-121 | every step of any interleaving of workers and timer keeps the invariant of lock, sections, output and responses |
| Attribution.SectionIsContribution | server/src/aesd_worker.c:31-61 | a section is exactly what its thread's own steps have written; it is complete exactly if that thread's receive loop completed, and then it is the writes of that loop |
| Attribution.CompleteIsPacket | server/src/aesd_worker.c:31-61 | of a NUL-free client stream it is the first line but for NULs, and exactly it if and only if every earlier chunk filled the buffer |
| Attribution.SectionBegan | server/src/aesd_worker.c:21-24 | what a section records of the device is what the device held when its thread took the lock |
| Attribution.ResponseSent | server/src/aesd_worker.c:96-113 | a response is all of what the output held when its thread released the lock |
| ServerTheorems.FileIsSections | server/src/aesd_worker.c:21-69 | the plain file is always its first content followed by all that each thread, worker or timer, has written, one thread after the other, none broken and none missing |
| ServerTheorems.FileResponse | server/src/aesd_worker.c:87-121 | a response is a prefix of the file from then on, and contains the packet that its worker received, behind what earlier threads wrote |
| ServerTheorems.ResponsesAreOrdered | server/src/aesd_worker.c:87-121 | of two responses one is a prefix of the other |
| WorkerOutcomes.RespondedExactly | server/src/aesd_worker.c:177-189 | a finished worker has responded if and only if it received a whole packet, nothing failed and it did not find shutdown set |
| WorkerOutcomes.WorkerResponds | server/src/aesd_worker.c:177-189 | from any state with the lock free a worker whose client sends a whole packet can go on alone to its response, having written what `receive_data` writes |
| WorkerOutcomes.CanReceive | server/src/aesd_worker.c:33-60 | any turns of the receive loop can happen, and write what `receive_data` writes for them |
| WorkerOutcomes.TimerStamps | server/src/aesd_server.c:240-254 | a timer tick can append its text in a section of its own |
| ServerTheorems.DevicePacketIsOneEntry | server/src/aesd_worker.c:17-72 | in character-device mode a worker that has received its packet has committed exactly one entry, ending in the packet, and equal to it if and only if nothing was pending when it took the lock, as is so if nothing was at the start and all earlier workers completed |
| ServerTheorems.DeviceResponse | server/src/aesd_worker.c:83-124 | end to end: the response is the concatenation of the last entries; the entry with the worker's packet is one of them, and the packet the slice of the response at its place, if and only if fewer than the ring's capacity were added since |
| ServerTheorems.DeviceHoldsPackets | server/src/aesd_worker.c:17-72 | while every worker received a whole packet, the device is what it was with those packets as its further entries, and nothing pending |
| DeviceStream.DeviceIsSections | server/src/aesd_worker.c:21-69 | in every reachable state, also while a worker is receiving or after one failed, the device's committed and pending bytes are the first ones followed by all that each thread has put there, one thread after the other, none broken and none missing |
| DeviceStream.DeviceHoldsLines | server/src/aesd_worker.c:33-60 | its new entries are at all times the lines of those bytes, and the rest is pending, if and only if no line was pending at the start and no write of a newline was interrupted at the ring's lock |
| ServerTheorems.SomeThreadGoesOn | server/src/aesd_worker.c:22-68 | while a thread is unfinished, some thread can take a step that is no failure, on the assumption that a client that `recv` waits for sends or closes |

## Left out

- CharDevice.AesdDev.Write: does not cover a user copy that fails in the append branch (`main.c:139-143`), where the pending pointer is not reset after the old block has been freed; `copyFails` is only for the first write of an entry.
- CharDevice.AesdDev.Cleanup: the pending entry's block is not freed, as in the code; the method states that it is what remains.
- DriverTheorems.Linearizable: starts from writes of at least one byte and from file positions that are not negative, and the same user copy as above is excluded; the lookup's sums are unbounded, so the ring's bytes are assumed to fit in `size_t`.
- CircularBuffer.RingBuffer.FindEntryOffsetForFpos: requires that the ring's bytes fit in `size_t`.
- Worker.AesdWorker.ReceiveData: `write` is all or an error; partial writes, which the code ignores, are not modelled. When the client has closed the connection the loop goes on until shutdown, so only loops that end are described.
- Worker.AesdWorker.SendResponse: `send` is all or an error.
- Worker.AesdWorker.RunWorker: no other thread has the output between the two functions; `ServerTheorems` is about the general case.
- ServerTheorems.SomeThreadGoesOn: a worker waits in `recv` with the output lock held; a client that neither sends nor closes keeps all others waiting.
- Server.AesdServer.AcceptClient: the list entry is allocated and the thread starts; the failing paths at `aesd_server.c:148-155` are not modelled.
- Server.AesdServer.CheckWorkers: which entries are found exited is a parameter; that a flag once set stays set is not used.
- XorQueue.XorHead.InsertHead: elements and links are words, and the cells of different elements are required to be different; the layout of the rest of an element is not modelled.
- A write interrupted while taking buf_lock may leave a newline at the end of the pending bytes; nothing else is claimed of the pending bytes.
- TAILQ_FOREACH_SAFE and its reverse form, and the LIST, SIMPLEQ (except as reference) and STAILQ macros, which are easier copies of those modelled.
- The timer's signal handler is an ordinary thread that takes the lock.
- Sockets, address lookup, binding, daemonising, logging, timestamps' text, device registration and module loading.
- `finder-app/`, `examples/`, scripts and build files.
