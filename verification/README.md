# A verified model of the AESD character driver and socket server

The repository is one pipeline. A server (`server/`) receives byte streams over sockets, cuts them into
newline-terminated packets and writes each packet to `/dev/aesdchar`; the driver (`aesd-char-driver/`)
keeps the last ten newline-terminated entries in a ring and serves positioned reads and seeks. This
project models every layer of that pipeline and proves what each promises, up to one statement about
all streams, all chunkings and all schedules.

## How it is organised

| file | models |
|---|---|
| `Base.dfy` | bytes, concatenation (`Flat`), the last n elements (`LastN`) |
| `Ring.dfy` | the circular buffer as a value: refinement of a bounded queue, all reachable states, the bijection between (entry, byte) pairs and flat positions |
| `CircularBuffer.dfy` | `aesd-circular-buffer.c` on an array, with `uint8` offsets and its wraparound loops |
| `WriteLog.dfy` | the abstract device: what a sequence of accepted writes means |
| `Driver.dfy` | `main.c` as a transition system of any number of threads over one device, the rw-semaphore and explicit memory |
| `DriverInvariant.dfy` | its inductive invariant, one lemma per kind of step |
| `DriverTheorems.dfy` | what holds in every reachable state: no faults, ownership, contents, accounting, reads, no deadlock |
| `Positions.dfy` | what a file position sees over a run: reading on, and seeking, while others commit and evict |
| `Runs.dfy`, `Device.dfy` | `main.c` as imperative code on a class; every call is a run of the transition system |
| `Packets.dfy`, `ClientFlow.dfy` | packet cutting, and the fragment list of `client_flow.c` and `packet_fragment.c` that does it in place |
| `TailQueue.dfy` | the TAILQ macros with address-of-next-cell back links, the pruning traversal, the accept loop |
| `ServerKernel.dfy`, `Server.dfy`, `ServerInvariant.dfy` | the client threads with the shared rwlock, as a product with the driver's transition system, and its inductive invariant |
| `ServerProgress.dfy` | a measure that every step lowers; nobody can move only when everybody is done |
| `Replies.dfy` | what a reply pins while it runs, and where it starts |
| `SeekCommands.dfy` | seek commands, from the write lock over the ioctl to the reply |
| `FullReplies.dfy` | replies run to end of file, one for each packet |
| `EndToEnd.dfy` | the theorems over all schedules of all clients |

Memory is a map from live allocation ids to contents, and ids are never reused. In the transition system
a dereference of freed memory, an access past an allocation, a double free or a failing source assertion
sets `fault`; the step rules do not prevent it, the theorem `NoRunFaults` does. Allocation failures,
failing user copies and interrupted locks are choices of the environment in the driver.

History fields (`writes`, `acked`, `order`, `done`) record what happened and influence no step.

One promise turns out to hold only under a condition. A position in the device is an index into the
retained text and does not move down when an entry is evicted, so a client that reads on, or that seeks
and then reads, continues without a gap exactly when nothing was evicted in between; otherwise it skips
as many bytes as were evicted. `ReadingOnAfterCommits` states the law on logs, `PositionInAnyRun` and
`SeekThenReadInAnyRun` for every run of the driver, and `NextReplyGoesOn` and
`SeekReplyStartsAtTheNamedByte` for the server, which drops its write lock before it takes the read lock
of the reply. `ReadingOnCanMissACommit` is a family of failing inputs on the ten-entry device itself.

## Model

| member | source | states |
|---|---|---|
| Rings.Size | aesd-char-driver/aesd-circular-buffer.c:121-126 | the count is at most the capacity, equals it exactly when full, and is 0 exactly when not full with equal offsets |
| Rings.PushRefinesQueue | aesd-char-driver/aesd-circular-buffer.c:76-111 | for every well-formed ring, wrapped or not, an add is "append, and drop the oldest when full" on the retained sequence; the caller gets back exactly the dropped entry; never-used slots stay NULL and what leaves a slot is what is returned |
| Rings.OccupiedIffLogical | aesd-char-driver/aesd-circular-buffer.c:121-126 | a physical slot is in the occupied range exactly when it holds some retained entry |
| Rings.PushesWindow | aesd-char-driver/aesd-circular-buffer.c:76-119 | for every run of adds from init the ring is the last min(k, N) entries added, and each add returns exactly the entry that leaves that window, or an empty entry |
| Rings.PushesCountAdds | aesd-char-driver/aesd-circular-buffer.c:85-119 | after k adds in_offs = k mod N, full iff k >= N, out_offs is 0 before the ring fills and k mod N afterwards, unused slots are NULL |
| Rings.PushConservesBytes | aesd-char-driver/aesd-circular-buffer.c:76-111 | new total + evicted size = old total + added size |
| Rings.LocateInvertsPosOf | aesd-char-driver/aesd-circular-buffer.c:29-67 | searching the flat position of an existing (entry, byte) pair gives that pair back |
| Rings.PosOfInvertsLocate | aesd-char-driver/aesd-circular-buffer.c:146-180 | every found pair exists and has the searched position; the search fails exactly from the total byte count on |
| Rings.PosOfIsMonotone | aesd-char-driver/aesd-circular-buffer.c:146-180 | flat order is the lexicographic order of pairs, zero-length entries included |
| CircularBuffers.CircularBuffer.constructor | aesd-char-driver/aesd-circular-buffer.h:36-55 | a fresh buffer of any capacity 1 to 255 is the empty ring |
| CircularBuffers.CircularBuffer.Init | aesd-char-driver/aesd-circular-buffer.c:116-119 | whatever it held, the buffer is the empty ring afterwards |
| CircularBuffers.CircularBuffer.BytesSize | aesd-char-driver/aesd-circular-buffer.c:128-144 | the wraparound loop computes the total of the retained sizes |
| CircularBuffers.CircularBuffer.OffsetAt | aesd-char-driver/aesd-circular-buffer.c:146-180 | returns the flat position of (entry, byte) exactly when that byte exists |
| CircularBuffers.FindEntryOffsetForFpos | aesd-char-driver/aesd-circular-buffer.c:29-67 | NULL buffer gives NULL; otherwise the slot and byte that the flat position names, or NULL beyond the end |
| CircularBuffers.AddEntry | aesd-char-driver/aesd-circular-buffer.c:76-111 | NULL buffer gives an empty entry; otherwise the in-place update appends and drops the oldest when full, offsets staying within uint8 |
| WriteLog.ReplayConservesBytes | aesd-char-driver/main.c:145-184 | committed entries followed by the pending text are the accepted writes end to end |
| WriteLog.ReplayLogGrows | aesd-char-driver/main.c:179-184 | later writes only extend the committed entries |
| WriteLog.NewlinesCountLog | aesd-char-driver/main.c:134-184 | there is one entry per accepted write that ends in a newline |
| WriteLog.ReplayBoundaries | aesd-char-driver/main.c:134-184 | entry boundaries fall exactly after the accepted writes that end in a newline |
| WriteLog.VisibleIsSuffix | aesd-char-driver/aesd-circular-buffer.c:89-110 | the retained text is everything committed minus a prefix as long as what was evicted, so position p names byte base + p |
| WriteLog.CommitShiftsPositions | aesd-char-driver/aesd-circular-buffer.c:89-110 | a commit that evicts nothing leaves all positions valid; one that evicts moves every surviving byte down by the evicted size |
| WriteLog.ReadingOnAfterCommits | aesd-char-driver/main.c:68-81 | from any position in the text or at its end, what is seen after more commits is what was seen before followed by the new text, less as many bytes as were evicted; without a gap if and only if nothing was evicted |
| WriteLog.GoneIffEvicted | aesd-char-driver/aesd-circular-buffer.c:89-110 | bytes are gone exactly when something was committed beyond the capacity |
| DriverInvariant.StepKeepsInv | aesd-char-driver/main.c:51-259 | every step of every thread, failing or not, keeps the lock discipline, the ownership, the contents and the readers' views |
| DriverInvariant.AppendAppends | aesd-char-driver/main.c:147-174 | append extends the text of temp_entry by the data, moving or reallocating ownership, and disturbs nobody else's memory |
| DriverInvariant.CommitOwns | aesd-char-driver/main.c:181-183 | commit hands temp_entry's block to the ring and the overwritten slot's block to evicted_entry, losing none |
| DriverInvariant.CommitView | aesd-char-driver/main.c:179-184 | after commit the retained texts are the last entries of the accepted writes including this one |
| DriverInvariant.FreeEvictedKeepsInv | aesd-char-driver/main.c:188-198 | freeing the evicted block after the unlock keeps everything, with readers inside the lock or not |
| DriverInvariant.FreeKernKeepsInv | aesd-char-driver/main.c:199-205 | freeing kern_buf keeps everything, after success and after every failure |
| DriverInvariant.CopyByteReads | aesd-char-driver/main.c:77-82 | each byte a reader copies is live, in bounds and the next byte of its entry |
| DriverInvariant.FindReads | aesd-char-driver/main.c:68-77 | the search lands in a live entry, so the two assertions after it hold |
| DriverInvariant.RunKeepsInv | aesd-char-driver/main.c:51-259 | the invariant holds after every run |
| DriverTheorems.NoRunFaults | aesd-char-driver/main.c:51-259 | no interleaving uses freed memory, frees twice, leaves a block's bounds or trips an assertion; no reader copies from a freed buffer |
| DriverTheorems.ExactlyOneOwner | aesd-char-driver/main.c:102-206 | every live allocation has exactly one owner; between calls it is an occupied slot or temp_entry |
| DriverTheorems.DeviceReplaysAcceptedWrites | aesd-char-driver/main.c:134-184 | in every reachable state the ring holds the last n entries of the accepted writes in critical-section order, and temp_entry the text since the last newline-terminated one |
| DriverTheorems.AcceptedWritesAreTheAcknowledged | aesd-char-driver/main.c:102-206 | a thread's accepted writes are exactly those that returned success, in order |
| DriverTheorems.EntriesEndAtNewlineWrites | aesd-char-driver/main.c:134-184 | in every run entries end exactly at accepted writes that end in a newline and no accepted byte is lost |
| DriverTheorems.PositionsNameLogBytes | aesd-char-driver/aesd-circular-buffer.c:29-67 | in every reachable state position p names byte base + p of all that was committed |
| DriverTheorems.ReadersPinContents | aesd-char-driver/main.c:64-93 | while anybody holds the semaphore for reading, no step changes the retained texts |
| DriverTheorems.FlatTextsSlice | aesd-char-driver/aesd-circular-buffer.c:47-66 | bytes of an entry are the bytes of the concatenated text at the entry's flat position |
| DriverTheorems.ReadReturnsTheText | aesd-char-driver/main.c:68-86 | a successful read delivers at least one byte, exactly the text at its position, and moves the position past it |
| DriverTheorems.EndOfFileIffNoText | aesd-char-driver/main.c:68-91 | a read reports end of file exactly at and beyond the end of the text |
| DriverTheorems.NoDeadlock | aesd-char-driver/main.c:64-254 | while some thread is inside a call, some thread can take its next step without any wait being interrupted |
| Positions.PositionInAnyRun | aesd-char-driver/main.c:68-86 | in every run, a thread whose position stays while others write has ahead of it what it had, followed by what was committed since, less as many bytes as were evicted; without a gap if and only if nothing was evicted |
| Positions.NextReadDelivers | aesd-char-driver/main.c:68-91 | the next read delivers at least a byte of exactly that text, and reports end of file exactly when none is left |
| Positions.NextReadInAnyRun | aesd-char-driver/main.c:68-91 | in every run, the next read of a thread that reads on delivers the first bytes of what lay before it and was committed since, after those that are gone; it returns 0 exactly when at least as much was evicted as there was to read |
| Positions.SeekMoves | aesd-char-driver/main.c:238-250 | a seek succeeds exactly when the byte of the retained entry exists, then moves the position to it, and changes nothing else; a rejected seek leaves the position |
| Positions.SeekFinds | aesd-char-driver/main.c:238-250 | after a successful seek the text ahead is the rest of the named entry and the later entries |
| Positions.SeekThenReadInAnyRun | aesd-char-driver/main.c:238-250 | with other threads running between a seek and the read that follows it: if nothing was evicted the read delivers exactly the named entry from the named byte on, clipped to the count; in general as many bytes are skipped as were evicted |
| Devices.Device.constructor | aesd-char-driver/main.c:302-328 | module init gives the initial state of the transition system with ten slots |
| Devices.Device.AppendToTemp | aesd-char-driver/main.c:145-173 | kern_buf becomes temp_entry, or its text is appended to the reallocated one; a failed krealloc changes nothing |
| Devices.Device.LockAndAppend | aesd-char-driver/main.c:136-174 | the locked append is a run of the transition system; an interrupted lock or a failed krealloc changes nothing |
| Devices.Device.CommitTemp | aesd-char-driver/main.c:179-184 | the push is the commit step of the transition system |
| Devices.Device.FinishWrite | aesd-char-driver/main.c:188-205 | the lock is released, then exactly the evicted block and the left-over kern_buf are freed |
| Devices.Device.Write | aesd-char-driver/main.c:102-206 | returns the number of bytes when nothing fails, 0 for an empty write, and the code of each failure under its guard, always the result of the steps it took; a failed or empty write changes neither ring, temp_entry nor memory; a successful one acts as one accepted write on a ten-entry window |
| Devices.Device.LockedRead | aesd-char-driver/main.c:66-91 | finds the entry at the position and copies exactly that entry from there on, clipped to the count; 0 exactly at end of file |
| Devices.Device.Read | aesd-char-driver/main.c:51-100 | delivers the text at the position, clipped to the count and to one entry; 0 exactly at end of file; the error codes, with the position unchanged; always the result of the steps it took |
| Devices.Device.ReadToEnd | aesd-char-driver/main.c:68-91 | reads with any positive counts end and together deliver exactly the text from the position on |
| Devices.Device.SeekTo | aesd-char-driver/main.c:234-251 | succeeds exactly when that byte of that retained entry exists; the position is then after the earlier entries and that many bytes, and names exactly that byte; otherwise it is unchanged |
| Devices.Device.Ioctl | aesd-char-driver/main.c:208-259 | the result code for every request, from the checks before the lock to the seek; on success the position of exactly the named byte, unchanged on every error |
| Devices.Device.SeekThenRead | aesd-char-driver/main.c:238-250 | a seek and then a read deliver the named entry from the named byte on, clipped to the count, at least one byte; a seek to a byte that does not exist is rejected and leaves the position |
| Devices.ReadingOnCanMissACommit | aesd-char-driver/main.c:68-91 | for all lines where the last is no longer than the others: after ten writes and a read to the end, one more write is accepted and the next read returns 0, although a seek finds the new entry |
| Devices.Device.LlseekSize | aesd-char-driver/main.c:261-275 | the size handed on is the length of the retained text |
| Devices.Device.FreeSlots | aesd-char-driver/aesd-circular-buffer.h:96-99 | the loop over all physical slots frees each held block once and leaves only temp_entry's |
| Devices.Device.Cleanup | aesd-char-driver/main.c:330-357 | after cleanup no allocation is left, every free was of a live block, and all slots are cleared |
| Runs.AcceptedView | aesd-char-driver/main.c:134-184 | between quiescent states one accepted write changes contents and pending text as the abstract device does |
| Runs.ReadRun | aesd-char-driver/main.c:51-100 | the steps of one read leave the device alone and move the position by what was delivered |
| Runs.SeekRun | aesd-char-driver/main.c:208-259 | the steps of one seek leave the device alone and set the position exactly when the byte exists |
| Runs.CleanupFacts | aesd-char-driver/main.c:338-354 | a quiescent device owns every allocation through its slots and temp_entry, each once |
| PacketStream.PacketsConserveBytes | server/client_flow.c:122-156 | the packets followed by the rest are the stream |
| PacketStream.PacketsArePackets | server/client_flow.c:139-148 | every packet ends in its only newline and the rest has none |
| PacketStream.PacketsUnique | server/client_flow.c:139-148 | no other way of cutting the stream has these two properties |
| PacketStream.PacketsResume | server/client_flow.c:133-156 | cutting can be resumed from the rest, so chunk boundaries do not matter |
| ClientFlow.Fragment.constructor | server/packet_fragment.c:5-15 | a fresh fragment is empty, unlinked and has its own 4096-byte buffer |
| ClientFlow.Client.TotalSize | server/client_flow.c:42-47 | the first loop computes the length of all held text |
| ClientFlow.Client.Flatten | server/client_flow.c:37-71 | one buffer filled exactly with all held text; every fragment but the tail freed; the list starts at the tail |
| ClientFlow.Client.WriteNewPacket | server/client_flow.c:78-92 | the flattened packet is the held text, nonempty and newline-terminated; afterwards the tail is the only fragment |
| ClientFlow.Client.CutPackets | server/client_flow.c:139-148 | cuts exactly the packets that the chunk completes and leaves the text after the last newline |
| ClientFlow.Client.ReceiveChunk | server/client_flow.c:133-156 | after a chunk the packets emitted and the bytes held before the tail are the cut of old held text plus chunk |
| ClientFlow.Client.FreeFragments | server/packet_fragment.c:17-25 | every live fragment is freed, each once |
| ClientFlow.Client.ProcessClient | server/client_flow.c:122-166 | for every chunking the packets are those of the whole stream, and all fragments ever allocated are freed |
| TailQueues.TailQueue.constructor | server/queue.h:787-791 | an initialised queue is well formed and empty |
| TailQueues.TailQueue.EmptyIffNoNodes | server/queue.h:743-743 | the empty test is exact |
| TailQueues.TailQueue.InsertTail | server/queue.h:831-839 | keeps well-formedness of forward links and back cells, and appends |
| TailQueues.TailQueue.Remove | server/queue.h:866-882 | keeps well-formedness and deletes exactly that place, first, middle or last |
| TailQueues.KeepExactly | server/aesdsocket.c:141-169 | exactly the clients with an open socket stay, and none with cancel set |
| TailQueues.KeepPlaces | server/aesdsocket.c:141-169 | those that stay keep their order: their places in the old list increase |
| TailQueues.KeepInOrder | server/aesdsocket.c:141-169 | keeping goes piece by piece over the list |
| TailQueues.CancelKeepsNone | server/aesdsocket.c:143-148 | with cancel set nobody stays |
| TailQueues.Clients.Start | server/aesdsocket.c:98-133 | a started client is appended, and owned by the list exactly when its thread was created; a failed malloc or fopen changes nothing; the list is valid afterwards if and only if no freed client was inserted |
| TailQueues.Clients.JoinCompleted | server/aesdsocket.c:135-170 | the traversal with removals ends; a client is in the list afterwards if and only if it was there, cancel is not set and its peer_fd was not negative when visited; the order is kept; the stream of each of the others is closed and its block freed once |
| TailQueues.Clients.ServeRound | server/aesdsocket.c:257-277 | a failed accept leaves the list alone; otherwise a client whose block and stream could be had joins at the end, and then exactly those with an open socket stay, in order and live |
| TailQueues.TraceAt | server/aesdsocket.c:253-278 | a trace of the loop says this of every one of its rounds |
| TailQueues.RunServer | server/aesdsocket.c:253-287 | every round does to the list what a round does, as the trace records, if no freed client was inserted; after the final cancelling join the list is empty, no client block is left and every stream is closed |
| ServerKernel.WriteProgress | aesd-char-driver/main.c:118-203 | seen from the server, a write that does not fail is accepted exactly once and changes nothing else |
| ServerKernel.ReadProgress | aesd-char-driver/main.c:51-100 | seen from the server, a read in flight ends with the text at its position, end of file exactly at the end, or an error with the position unchanged |
| ServerKernel.SeekProgress | aesd-char-driver/main.c:234-251 | seen from the server, a seek in flight accepts no write and keeps its parameters until it has taken effect |
| ServerInvariant.AcceptPiece | server/client_flow.c:105-106 | accepting the next piece of a packet extends the pending text, and commits the whole packet exactly with its last byte |
| ServerInvariant.OrdinaryExactly | server/client_flow.c:96-106 | exactly the packets that are no seek commands are written |
| ServerInvariant.EveryMoveKeepsInv | server/client_flow.c:20-120 | every server step and every kernel step under it keeps locks, device account, packet account and replies |
| ServerInvariant.ScheduleKeepsInv | server/client_flow.c:20-120 | the invariant holds after every schedule |
| ServerProgress.SomebodyCanGo | server/client_flow.c:25-114 | unless all clients are done, some connection does not have to wait for the server's lock |
| ServerProgress.NextMovePossible | server/client_flow.c:25-114 | the next step of such a connection is possible, also inside a system call that waits for the driver's semaphore |
| ServerProgress.EveryMoveAdvances | server/client_flow.c:20-120 | every possible step of anybody, whatever the sizes, interrupted waits and failed copies, lowers a measure of the work left over all connections |
| ServerProgress.StuckIffFinished | server/client_flow.c:20-120 | nobody can move if and only if every client is done |
| ServerProgress.NoEndlessSchedule | server/client_flow.c:20-120 | of any endless sequence of turns only finitely many can be taken |
| ServerProgress.CanFinish | server/client_flow.c:20-166 | every state that satisfies the invariant can be played to an end where nobody can move and every client is done |
| Replies.PlayPins | server/client_flow.c:25-34 | over any schedule in which some client keeps its read lock no write is accepted and no packet enters the order |
| Replies.PlayCarries | server/client_flow.c:94-119 | over any schedule, a position with nothing left to move it stays until the client's next reply, and that reply starts there |
| SeekCommands.SeekCarries | server/client_flow.c:94-119 | after the ioctl of a seek command the position carried to the reply is the named byte when it exists, and the old one otherwise |
| SeekCommands.PlayOnCourse | server/client_flow.c:94-119 | over any schedule, a client that holds the lock with a seek command issues its seek before anything else, with nobody else committing meanwhile, and carries the outcome to its reply |
| Replies.ReplyCarries | server/client_flow.c:20-35 | after a reply that position is where the reply ended, when the next packet is ordinary |
| EndToEnd.DeviceHoldsWholePackets | server/client_flow.c:94-114 | whenever no client holds the write lock the device retains exactly the last ten non-seek packets in write-lock order, whole and unmixed, and temp_entry is empty |
| EndToEnd.OnlyWholePacketsCommitted | server/client_flow.c:94-114 | at any time, also in the middle of a write, only whole packets are committed, and nothing has faulted |
| EndToEnd.OrderFollowsEveryStream | server/client_flow.c:122-156 | each client's part of that order is its own packets in stream order without seek commands, as far as it got; no seek command is in the order |
| EndToEnd.StreamsReachTheDevice | server/client_flow.c:78-156 | when all clients are done the device retains the last ten entries of an interleaving of the packets of all streams, whatever the chunks, the writes and the schedule |
| EndToEnd.RepliesPinTheDevice | server/client_flow.c:25-34 | over any schedule in which some client keeps its read lock, the retained entries, the empty temp_entry and the order stay as they are |
| EndToEnd.ReplyIsASnapshot | server/client_flow.c:20-35 | at every moment of a reply, in progress, failed or complete, what was sent is the retained whole packets from its start position on, as far as it got; all of it when it ran to end of file |
| EndToEnd.EveryReplyRunsToTheEnd | server/client_flow.c:25-34 | over every schedule from the read lock on in which none of the client's reads fails, once the client can drop the lock it has sent exactly the text the device held, from its position to the end |
| EndToEnd.OneReplyForEachPacket | server/client_flow.c:94-120 | over every schedule each client takes and drops the read lock once for every packet it has handled and issues one seek for every command among them; when done, for every packet of its stream |
| EndToEnd.FirstReplyStartsAtZero | server/client_flow.c:20-35 | the reply to a first, ordinary packet starts at the oldest retained packet |
| EndToEnd.NextReplyGoesOn | server/client_flow.c:94-119 | the next reply to an ordinary packet starts where the last one ended, and sends what that left and what was committed since, without a gap if and only if nothing was evicted between |
| EndToEnd.SeekReplyStartsAtTheNamedByte | server/client_flow.c:94-119 | from the moment a client takes the write lock with a seek command that names an existing byte, over every schedule in which its seek is not interrupted, its reply starts at that byte and sends the text from there on and what was committed since, if and only if nothing was evicted between; otherwise it skips as many bytes as were evicted |
| EndToEnd.RejectedSeekKeepsThePosition | server/client_flow.c:94-119 | the same for a seek command that names no byte or whose seek is interrupted: its reply starts where the position was |
| EndToEnd.EveryScheduleEnds | server/client_flow.c:20-166 | from every state of every schedule, of any endless sequence of turns only finitely many can be taken |
| EndToEnd.EveryMaximalScheduleDelivers | server/client_flow.c:20-166 | every schedule that cannot be continued, however unfair, ends with all locks free and every client's packets handled, and with the device retaining the last ten entries of an interleaving of the packets of all streams |
| EndToEnd.EverySituationCanFinish | server/client_flow.c:20-166 | every state of every schedule can be played on to such an end |

## Left out

- Machine integers: sizes and positions are unbounded, so overflow of `size_t` totals is not modelled; the ring offsets are 8-bit and proved to stay in range.
- The append step of the transition system covers lines 147-174 at once, because the semaphore is held exclusively there; the imperative `Devices.Device.AppendToTemp` has the lines one by one.
- Devices.Device.Read: copy_to_user is one assignment there; its byte-by-byte interleaving with other threads is in the transition system.
- ServerInvariant.EveryMoveKeepsInv: writes issued by the server do not fail and its fragment and flatten allocations succeed, because the server uses those results unchecked; driver failures are modelled for all other callers.
- EndToEnd.StreamsReachTheDevice: a client's packets are all available from the start, because when recv delivers a chunk does not affect what is proved; nobody but the server writes to the device.
- stdio: buffering, sticky end of file and the `a+` position of the client's stream are library behaviour; replies are modelled as driver reads from the file position.
- The seek-command test (`sscanf`) is an arbitrary function from packets to optional parameters.
- TailQueues.Clients.JoinCompleted: thread cancellation and join, leftover fragments of a cancelled thread and the close of the socket are not modelled; what each `peer_fd` reads when visited is an arbitrary function.
- TailQueues.RunServer: after a round that inserted a freed client the traversal would use freed memory, so such rounds are excluded; `Start` states when they happen.
- EndToEnd.EveryScheduleEnds: streams are finite; whether a client that never stops sending can keep another waiting depends on the fairness of the two locks, which is library and kernel behaviour.
- Each thread of the driver has its own open file; two threads that share one file and move its position under the read lock are not modelled.
- Devices.Device.LlseekSize: taking the semaphore in `aesd_llseek` is not a step of the transition system.
- Socket setup, daemonising, signals, logging, name lookup, module registration and `fixed_size_llseek`: calls into code that is not part of the repository.
- The non-device file mode, the commented-out timer, and the queue macros the server does not use.
- `finder-app`, `examples` and `student-test`: command-line exercises around files, system calls and threads that are no part of the driver or the server; the scripts build and start the two.
