# xsix verification model

A Dafny model of the xsix networking toolkit and of the parts of its vendored Asio that move bytes,
with proofs of what each part keeps over every input and every run. `dafny verify dfyconfig.toml`
checks the whole project.

What is modelled:

- **Ring buffer** (`RingGrowth`, `RingBuffer`, `RingRuns`): the growing byte ring as a class over an
  array. Every method is proved against one step relation on value snapshots, and every run of calls
  is compared with a plain FIFO byte queue bounded at 1 MB. `realloc` zeroes the head before it asks
  for the length, so growth keeps the contents exactly when the head is at 0 or the buffer is full;
  the model keeps the code as it is and proves that condition exact, for one reallocation, for one
  append and for whole runs. `ReallocLengthFirst`, which differs only in taking the length before it
  zeroes the head, loses nothing from any state.
- **Chat room** (`Wire`, `Announcement`, `Channel`, `ChatRoom`, `ChatRuns`, `ChatServer`): the message
  and its length-prefixed frame, what the server announces and how it reads back, one direction of a
  connection (send queue, one write in flight, a transport that may take a write in pieces, a
  header/body reader), the whole room as a state machine, and the server's objects with their broadcast
  and sweep loops. `ChatRuns` tells whole runs from their events alone and proves that everything said
  can be heard. Handlers are atomic steps because the server polls from one thread. A started write
  carries the encoded front of the queue. Reads fill their buffer: this is an assumption about
  `async_read_some`, and `ShortReadBreaksFraming` shows that it is needed.
- **Actor scheduler** (`ActorScheduler`, `ActorRuns`, `ActorProgress`): the scheduling loop and the
  pool's workers as interleaved steps, one per access to shared state. The mailbox is copied and never
  cleared, so a message is handled once for every later snapshot; the theorems describe that.
  `ActorRuns` tells the histories from the events alone, and `ActorProgress` proves that every due
  actor is served and nothing gets stuck. The class `ActorBase` has the actor's own methods, one call
  at a time. Only the scheduler and its task change an actor's state and timestamp, a tick does not
  throw, and an actor's interval does not change.
- **Blocking queue** (`BlockQueue`): the monitor with its mutex, condition variable, spurious wake-ups
  and barging consumers, at the granularity of single statements inside the critical sections.
- **Scattered buffers** (`Scatter`, `BuffersIterator`, `BufferCopy`, `StreamBuf`): Asio's byte cursor
  over a buffer sequence, all overloads of `buffer_copy`, and the stream buffer.
- **Text** (`Formatter`, `Tokenizer`): the bounded recursive formatter and `split`.

Where the code and its intent part, the code is followed:

- the ring buffer's reallocation, as above; a constructor given more than 64 never leaves the growth
  loop (`GrowthTerminatesIff`);
- an escaped percent sign is written without moving on, so it survives only at the very end of a
  format with arguments to spare, and in the argument-free base case any percent sign throws:
  `EscapeIsLost` is an everyday call that goes wrong, and `AlwaysIdealIffSound` says exactly which
  calls come out as expected;
- a reservation in the stream buffer that throws has already shifted the data but not the pointers
  (`ShiftAndGrow`, `ShearedIffNotPeriodic`; `ShearingRun` is a run where 2, 3, 4 read as 3, 4, 4), and a commit or consume of more than 2^31 - 1 bytes does
  not survive its cast to int (`Commit`, `Consume`).

## Model

| member | source | states |
|---|---|---|
| RingGrowth.RefixNewSize | src/xsix/buffer.hpp:286-305 | the growth loop terminates from every positive capacity for requests up to 1 MB; from a capacity on the ladder it stops at the least capacity on the ladder that holds the request |
| RingGrowth.GrowthTerminatesIff | src/xsix/buffer.hpp:286-305 | for every valid request the loop ends exactly when the request is at most 64 or the capacity is positive |
| RingGrowth.ClimbIsLeastRung | src/xsix/buffer.hpp:293-303 | from 64, 128, 256, 512 or a multiple of 1024 the loop stops on the least such capacity that holds the request |
| RingGrowth.RefixedIsLeastRung | src/xsix/buffer.hpp:292-304 | the capacity taken for a larger request is on the ladder, holds the request and is at most every ladder capacity that does |
| RingBuffer.Buffer.constructor | src/xsix/buffer.hpp:20-26 | a default buffer is empty with capacity 64 |
| RingBuffer.Buffer.Clear | src/xsix/buffer.hpp:45-49 | empties the queue and keeps the capacity |
| RingBuffer.Buffer.Realloc | src/xsix/buffer.hpp:319-349 | the old contents always reach the front of the new allocation, and remain the contents if and only if head was 0 or the buffer full |
| RingBuffer.Buffer.ReallocLengthFirst | src/xsix/buffer.hpp:344-348 | with lines 345 and 346 exchanged the contents survive from every state |
| RingBuffer.Buffer.Resize | src/xsix/buffer.hpp:351-371 | succeeds exactly for sizes from 1 to 1 MB, grows to the least ladder capacity that holds the size, and otherwise changes nothing |
| RingBuffer.Buffer.Append | src/xsix/buffer.hpp:129-179 | appends the bytes at the end of the queue exactly when no lossy growth happens, refuses exactly beyond 1 MB, grows only to the least ladder capacity that holds all, and leaves sound geometry either way |
| RingBuffer.Buffer.Store | src/xsix/buffer.hpp:144-177 | the one-piece and the wrapped copy write exactly the bytes from the tail round the ring |
| RingBuffer.StoringExtends | src/xsix/buffer.hpp:144-177 | copying into free space extends the logical bytes at their end and disturbs none of them |
| RingBuffer.DroppingShortens | src/xsix/buffer.hpp:217-219 | advancing the head drops exactly that many bytes from the front |
| RingBuffer.LossyGrowthMiscounts | src/xsix/buffer.hpp:344-348 | a growth from any other state always leaves a wrong byte count after the append |
| RingBuffer.Buffer.WriteTo | src/xsix/buffer.hpp:182-221 | hands out and removes the front bytes, as many as asked for and present, and touches no other byte of the destination |
| RingBuffer.Buffer.Peek | src/xsix/buffer.hpp:223-259 | hands out the same bytes and changes nothing |
| RingBuffer.Buffer.Skip | src/xsix/buffer.hpp:261-277 | removes n front bytes if there are that many and n is positive, otherwise nothing |
| RingRuns.EveryStateIsSound | src/xsix/buffer.hpp:103-125 | in every run, lossy or not, indices are in bounds, full means head equals tail, the length agrees with the contents, the capacity is on the ladder, and an append is refused exactly beyond 1 MB |
| RingRuns.StepGrowsToLeastRung | src/xsix/buffer.hpp:286-305 | a call that changes the capacity leaves the least ladder capacity that holds what it was asked for |
| RingRuns.RefinesQueue | src/xsix/buffer.hpp:129-277 | every run without a lossy growth has the contents and the answers of a FIFO byte queue |
| RingRuns.RefinesQueueIffLossless | src/xsix/buffer.hpp:319-349 | the first growth from a state with head not at 0 and the buffer not full leaves the queue behind: the condition is exact |
| RingRuns.MiscountingRun | src/xsix/buffer.hpp:344-348 | 10 bytes in, 5 skipped, 60 in: 70 reported instead of 65 |
| Wire.Encode | examples/chatroom/chat_room_msg.hpp:69-76 | two bytes that hold the length, the high one first, and then the content |
| Wire.HeaderRoundTrip | examples/chatroom/chat_room_msg.hpp:69-76 | the header of an encoded message announces its length and the rest is its content |
| Wire.FramingIsInjective | examples/chatroom/chat_room_msg.hpp:69-76 | different message lists have different byte streams |
| Wire.Message.SetContent | examples/chatroom/chat_room_msg.hpp:56-60 | the message stands for exactly the source bytes |
| Wire.Message.GetContent | examples/chatroom/chat_room_msg.hpp:62-67 | gives back what SetContent was last given, however the buffer stores it |
| Wire.Message.GetBuf | examples/chatroom/chat_room_msg.hpp:69-76 | gives the wire form of what was set, which decodes back to it |
| Channel.StepKeepsInv | examples/chatroom/chat_room_server.cc:45-118 | every push, partial transmission, completion, error and read keeps queue, write in flight, byte stream and reader in step |
| Channel.DeliversInOrder | examples/chatroom/chat_room_server.cc:85-118 | in every run at most one write is in flight, before any error exactly while the queue is non-empty and carrying its front; sent bytes are a prefix of the encodings and include all completed messages; decoded messages are a prefix of those pushed |
| Channel.EverythingCanBeDelivered | examples/chatroom/chat_room_server.cc:85-118 | from every state without a write error the channel's own steps alone deliver everything ever pushed: nothing is lost or stuck |
| Channel.FailureIsFinal | examples/chatroom/chat_room_server.cc:90-95 | for the rest of any run after a write error no write is in flight and no byte goes out |
| Channel.EventsDecideTheState | examples/chatroom/chat_room_server.cc:45-118 | in every run the messages enqueued, bytes sent, messages popped, headers and bodies read and the failure are what the events alone count up to, and runs that count the same end in the same state, however they interleave |
| Channel.HeaderAhead | examples/chatroom/chat_room_client.cc:53-72 | a header read finds the header of the next message pushed |
| Channel.BodyAhead | examples/chatroom/chat_room_client.cc:74-92 | a body read finds the content of that message |
| Channel.ShortReadBreaksFraming | 3rd/asio/include/asio/basic_stream_socket.hpp:945-948 | a header read that returns one byte makes the reader deliver a message nobody sent |
| Announcement.AnnouncementFits | examples/chatroom/chat_room_server.cc:23-31 | a received message of up to 1006 bytes gives an announcement that fits a message, whatever the id |
| Announcement.DecimalMeansNumber | examples/chatroom/chat_room_server.cc:29-29 | the printed id is digits, without a leading zero, whose positional value is the id |
| Announcement.CString | examples/chatroom/chat_room_server.cc:26-29 | the text is a NUL-free prefix of the message, all of it or up to a NUL |
| Announcement.AnnouncementReadsBack | examples/chatroom/chat_room_server.cc:23-31 | a reader of "guest(number):text" gets the speaker's id and the text up to its first NUL back from every announcement |
| ChatRoom.StepKeepsTable | src/xsix/network/tcp_server.hpp:43-164 | every step keeps keys equal to ids, ids below the next one, and each connection's slice of the broadcast log |
| ChatRoom.ChannelsTakeOwnSteps | examples/chatroom/chat_room_server.cc:23-147 | a step of the room is to each channel exactly the channel events it stands for: its own reads and writes, and one push per broadcast while the connection is in the table |
| ChatRoom.ClientsSeeTheLog | examples/chatroom/chat_room_server.cc:107-147 | in every run the messages enqueued to a connection are exactly the slice of the broadcast log from its acceptance to its removal, and what its client has decoded is a prefix of the log from its acceptance on |
| ChatRoom.ClientsAgree | examples/chatroom/chat_room_server.cc:137-147 | any two clients get their common messages in the same order |
| ChatRoom.BroadcastsWereSaid | examples/chatroom/chat_room_server.cc:23-31 | the n-th broadcast from a connection announces the n-th message decoded from its client, which is the n-th sent, and a reader finds the speaker's id and the text in it |
| ChatRoom.TableIsConsistent | src/xsix/network/tcp_server.hpp:144-164 | in every run short of int32 exhaustion keys are ids below the next id, no id is used twice, and the occupied branch of add_conn is unreachable |
| ChatRoom.SweepKeepsOpen | src/xsix/network/tcp_server.hpp:55-75 | after a sweep the table holds exactly the open connections |
| ChatRuns.EventsDecideTheTable | src/xsix/network/tcp_server.hpp:43-164 | told from the events alone: ids count the accepted connections, every handled message is one broadcast, a connection is open until a failed read or write closes it, and in the table exactly until a sweep after that |
| ChatRuns.StepKeepsStanding | src/xsix/network/tcp_connection.hpp:66-73 | every step keeps open and in the table what the events say, so a failed read or write and a later sweep take the connection out |
| ChatRuns.ChannelsRunTheirOwnEvents | examples/chatroom/chat_room_server.cc:45-147 | in every run of the room each channel has made exactly the run of its own events from a fresh start: none skipped, none added, none from another connection |
| ChatRuns.EverythingSaidCanBeHeard | examples/chatroom/chat_room_server.cc:23-147 | from every moment of every run the room's own work alone takes everything an open connection's client has sent into the log and the whole log since its acceptance to any client in the table |
| ChatServer.Connection.HandleError | src/xsix/network/tcp_connection.hpp:66-73 | an error closes the socket, once |
| ChatServer.Connection.DoWrite | examples/chatroom/chat_room_server.cc:85-103 | starts a write that carries the encoded front of the queue |
| ChatServer.Connection.SendMsgToClient | examples/chatroom/chat_room_server.cc:107-118 | pushes the message and starts a write only if the queue was empty |
| ChatServer.Connection.OnWrite | examples/chatroom/chat_room_server.cc:90-101 | success pops the front and writes the next; an error closes the socket, pops nothing and starts nothing |
| ChatServer.Connection.ReadHeader | examples/chatroom/chat_room_server.cc:45-63 | awaits a header, unless the socket is closed |
| ChatServer.Connection.OnHeader | examples/chatroom/chat_room_server.cc:54-72 | the next read wants as many bytes as the header says, unless the socket is closed |
| ChatServer.Server.Broadcast | examples/chatroom/chat_room_server.cc:137-147 | every connection in the table takes exactly one push of the message, and nothing else changes |
| ChatServer.Server.OnBody | examples/chatroom/chat_room_server.cc:73-81 | a complete message is announced to every connection in the table under its sender's id, even if the socket has closed meanwhile; the next header is awaited only if it has not |
| ChatServer.Server.AddConn | src/xsix/network/tcp_server.hpp:144-156 | the new connection gets a free id, the next one |
| ChatServer.Server.RemoveConn | src/xsix/network/tcp_server.hpp:157-164 | removes that id and no other |
| ChatServer.Server.Sweep | src/xsix/network/tcp_server.hpp:55-75 | collecting and then erasing leaves exactly the connections found open |
| ActorScheduler.StepKeepsInv | src/xsix/actor/actor_core.cc:19-44 | every single access by scheduler, worker or sender keeps actors, ticks, locks and histories consistent |
| ActorScheduler.OneTickAtATime | src/xsix/actor/actor_core.cc:28-40 | in every interleaving an actor has at most one tick posted or running and is READY only when it has none |
| ActorScheduler.DispatchesAreSpaced | src/xsix/actor/actor_base.cc:21-35 | for any clock and any first timestamp the i-th and j-th dispatches are at least j - i intervals apart |
| ActorScheduler.BatchesArePrefixes | src/xsix/actor/actor_base.cc:43-60 | snapshots are a chain of prefixes of the arrival log, each handled in order and in full before the next |
| ActorScheduler.LaterBatchesHoldAll | src/xsix/actor/actor_base.cc:37-49 | every snapshot after a moment holds all that had arrived by then, so a message is handled once per later snapshot |
| ActorScheduler.LaterSnapshotsOfRun | src/xsix/actor/actor_base.cc:37-49 | the same from any moment of any run |
| ActorScheduler.SelfSendNeverBlocks | src/xsix/actor/actor_base.cc:37-60 | a handler that adds to its own actor finds the mailbox free, and the message lands beyond the current batch |
| ActorScheduler.NonNullIsFilter | src/xsix/actor/actor_base.cc:52-59 | handling a batch drops the nulls and keeps every other message, once and in order |
| ActorRuns.EveryDispatchIsAccountedFor | src/xsix/actor/actor_core.cc:28-40 | in every run an actor's dispatches are its snapshots plus one exactly while it is stamped and not posted or its tick has not copied the mailbox, and it is READY exactly when it has no tick and the loop has not claimed it |
| ActorRuns.DispatchesAreReadings | src/xsix/actor/actor_core.cc:23-31 | told from the events alone: the dispatch times of an actor are the clock readings of the scans in which it was stamped, in order |
| ActorRuns.ArrivalsAreAdded | src/xsix/actor/actor_base.cc:37-41 | what has arrived is what was there before and every message added since, in order |
| ActorProgress.PassDispatchesAllDue | src/xsix/actor/actor_core.cc:23-42 | one pass of the loop dispatches and posts every actor that is ready and due at the time read, leaves all others alone and comes back to the top |
| ActorProgress.FinishTick | src/xsix/actor/actor_core.cc:32-39 | from wherever it is a tick runs to its end by its own steps, with its whole batch handled and the actor READY |
| ActorProgress.DueActorIsServed | src/xsix/actor/actor_core.cc:19-44 | from every reachable state at the top of the loop, an actor READY and due at now is dispatched at now, has everything that had arrived handled in order, and is READY again |
| ActorProgress.EveryMessageCanBeHandled | src/xsix/actor/actor_core.cc:19-44 | from every moment of every run, one more look at the clock is enough for everything that has arrived at an actor to be handled and the actor to be READY: nothing gets stuck |
| ActorScheduler.ActorBase.constructor | src/xsix/actor/actor_base.h:31-31 | an actor starts READY with an empty mailbox and an arbitrary timestamp |
| ActorScheduler.ActorBase.ReadyTickDecidesTheVisit | src/xsix/actor/actor_base.cc:21-35 | ready_tick says yes exactly when the loop visiting the actor gets through the steps SeeReady and IsDue, and no exactly when it moves on |
| ActorScheduler.ActorBase.AddMsg | src/xsix/actor/actor_base.cc:37-41 | one call on the object is one AddMsg step of the system it belongs to |
| ActorScheduler.ActorBase.HandleAllMsg | src/xsix/actor/actor_base.cc:43-60 | handles exactly the non-null messages of the mailbox, in order, and leaves the mailbox as it is |
| ActorScheduler.ActorBase.Tick | src/xsix/actor/actor_base.cc:10-14 | marks the actor busy and handles the whole mailbox |
| BlockQueue.StepKeepsInv | src/xsix/block_queue.hpp:21-46 | every statement of put and take, and every spurious wake-up, keeps order and wake-ups accounted for |
| BlockQueue.FirstInFirstOut | src/xsix/block_queue.hpp:21-46 | in every interleaving, by the calls alone, the k-th pop takes the k-th element pushed and the queue holds the rest in order |
| BlockQueue.EveryTakeIsAccountedFor | src/xsix/block_queue.hpp:35-46 | every call of take has popped one element, or its consumer is asleep, or woken, or holds the mutex, and is in one of these places only |
| BlockQueue.PutIsAtomic | src/xsix/block_queue.hpp:21-33 | put from lock to unlock appends one element, wakes one sleeper if there is one and does nothing else |
| BlockQueue.TakeIsAtomic | src/xsix/block_queue.hpp:35-46 | a consumer, new or woken, that finds an element takes the front one and does nothing else |
| BlockQueue.TakeOfNothingSleeps | src/xsix/block_queue.hpp:37-41 | a consumer that finds no element joins the wait set and releases the mutex |
| BlockQueue.NoLostWakeup | src/xsix/block_queue.hpp:21-46 | while a consumer sleeps, at least as many woken consumers are pending as elements are queued, and with the mutex free any one of them can take the front |
| Scatter.SpliceInFlat | 3rd/asio/include/asio/buffer.hpp:2173-2183 | overwriting part of one piece overwrites that part of the flat sequence |
| BuffersIterator.CursorIsUnique | 3rd/asio/include/asio/buffers_iterator.hpp:493-498 | a position has exactly one cursor, empty pieces notwithstanding |
| BuffersIterator.CursorSeesFlat | 3rd/asio/include/asio/buffers_iterator.hpp:341-345 | a cursor sees the byte of the flattened data at its position |
| BuffersIterator.StepsLand | 3rd/asio/include/asio/buffers_iterator.hpp:354-491 | two cursors n positions apart are n single steps apart |
| BuffersIterator.Iterator.Begin | 3rd/asio/include/asio/buffers_iterator.hpp:167-184 | the cursor of position 0 |
| BuffersIterator.Iterator.End | 3rd/asio/include/asio/buffers_iterator.hpp:187-203 | the cursor of the position after the last byte |
| BuffersIterator.Iterator.Dereference | 3rd/asio/include/asio/buffers_iterator.hpp:341-345 | the byte of the flattened data at the position |
| BuffersIterator.Iterator.Equal | 3rd/asio/include/asio/buffers_iterator.hpp:348-351 | comparing positions compares cursors |
| BuffersIterator.Iterator.Increment | 3rd/asio/include/asio/buffers_iterator.hpp:354-374 | moves to the cursor of the next position |
| BuffersIterator.Iterator.Decrement | 3rd/asio/include/asio/buffers_iterator.hpp:377-404 | moves to the cursor that one step forward undoes |
| BuffersIterator.Iterator.Advance | 3rd/asio/include/asio/buffers_iterator.hpp:407-485 | terminates and equals that many single steps, in either direction |
| BuffersIterator.Iterator.DistanceTo | 3rd/asio/include/asio/buffers_iterator.hpp:488-491 | the signed number of single steps from one cursor to the other |
| BuffersIterator.Walk | 3rd/asio/include/asio/buffers_iterator.hpp:354-485 | any in-bounds sequence of moves ends at the cursor of the position it adds up to and sees that byte |
| BufferCopy.BufferSize | 3rd/asio/include/asio/buffer.hpp:558-572 | the total size of the pieces is the length of the flat sequence |
| BufferCopy.CopyOne | 3rd/asio/include/asio/buffer.hpp:2173-2183 | copies the lesser of room and source into one piece and nothing else |
| BufferCopy.OneToOne | 3rd/asio/include/asio/buffer.hpp:2185-2191 | copies the lesser of the two sizes |
| BufferCopy.OneToOneUpTo | 3rd/asio/include/asio/buffer.hpp:2193-2201 | the same, up to a limit |
| BufferCopy.ManyToOne | 3rd/asio/include/asio/buffer.hpp:2203-2224 | returns the least of the three sizes and leaves that many flat source bytes followed by the old rest |
| BufferCopy.OneToMany | 3rd/asio/include/asio/buffer.hpp:2226-2247 | the same over any split of the target |
| BufferCopy.ManyToMany | 3rd/asio/include/asio/buffer.hpp:2249-2291 | the same over any split of both sides, without a limit |
| BufferCopy.ManyToManyUpTo | 3rd/asio/include/asio/buffer.hpp:2293-2339 | the same over any split of both sides, with a limit |
| StreamBuf.Buffer.constructor | 3rd/asio/include/asio/basic_streambuf.hpp:131-141 | an empty input sequence within the maximum |
| StreamBuf.Buffer.ShiftAndGrow | 3rd/asio/include/asio/basic_streambuf.hpp:321-345 | shifting and growing keep the input sequence; a throw leaves the pointers and shows exactly what the shift did |
| StreamBuf.Buffer.Reserve | 3rd/asio/include/asio/basic_streambuf.hpp:308-346 | throws exactly when size plus request exceeds the maximum |
| StreamBuf.ShearedIffNotPeriodic | 3rd/asio/include/asio/basic_streambuf.hpp:321-340 | a throwing reservation leaves the input sequence alone exactly when the get pointer is at the start or a whole sequence away, or the bytes repeat with that period |
| StreamBuf.ShearingRun | 3rd/asio/include/asio/basic_streambuf.hpp:321-340 | filling up, consuming one byte and asking for two more fails and shows sheared bytes |
| StreamBuf.ShearingExample | 3rd/asio/include/asio/basic_streambuf.hpp:321-340 | in that run 2, 3, 4 read as 3, 4, 4 |
| StreamBuf.Buffer.Prepare | 3rd/asio/include/asio/basic_streambuf.hpp:214-219 | hands out the requested room without changing the input sequence |
| StreamBuf.Buffer.PrepareAndFill | 3rd/asio/include/asio/basic_streambuf.hpp:214-219 | what a caller writes into the prepared room is what the next commits append |
| StreamBuf.Buffer.Commit | 3rd/asio/include/asio/basic_streambuf.hpp:233-238 | appends the prepared bytes exactly when their number fits an int |
| StreamBuf.Buffer.Consume | 3rd/asio/include/asio/basic_streambuf.hpp:247-254 | removes from the front exactly when the number fits an int |
| StreamBuf.Buffer.Underflow | 3rd/asio/include/asio/basic_streambuf.hpp:263-274 | shows the byte that the next consume removes first, or none exactly when empty |
| StreamBuf.ShownIsNextConsumed | 3rd/asio/include/asio/basic_streambuf.hpp:247-274 | the contents are the byte shown followed by what consuming one byte leaves |
| StreamBuf.RunsConsumeWhatTheyShow | 3rd/asio/include/asio/basic_streambuf.hpp:247-274 | the same wherever in a run a look is followed by consuming one byte |
| StreamBuf.Buffer.Overflow | 3rd/asio/include/asio/basic_streambuf.hpp:283-306 | appends the character, reserving 128 bytes or what is left below the maximum; throws exactly when the size is the maximum, and then changes nothing a reader sees |
| StreamBuf.EveryCallIsAQueueCall | 3rd/asio/include/asio/basic_streambuf.hpp:214-346 | every run of non-throwing calls whose counts fit an int is a run of a byte queue within the maximum size; a commit beyond what was prepared is clipped to the room and starts with the prepared bytes |
| StreamBuf.RefinesBoundedQueue | 3rd/asio/include/asio/basic_streambuf.hpp:221-232 | in runs that keep the documented rule for commits the contents are those of the deterministic queue |
| Formatter.Render | src/xsix/fmt.hpp:12-48 | writes as much of the text as fits and one NUL |
| Formatter.FmtBase | src/xsix/fmt.hpp:53-82 | throws exactly when a percent sign is left, otherwise leaves the text cut to the space |
| Formatter.Fmt | src/xsix/fmt.hpp:84-124 | writes only inside the region and leaves exactly the first size - 1 characters of the produced text, for every format; says exactly when it throws |
| Formatter.FmtString | src/xsix/fmt.hpp:126-135 | without escapes and with arguments enough, the string is the expected expansion cut to 4095 characters |
| Formatter.PlainFormatsAreIdeal | src/xsix/fmt.hpp:97-123 | without escapes and with arguments enough the produced text is the expected expansion and nothing throws, in any space |
| Formatter.IdealFillsTemplates | src/xsix/fmt.hpp:84-124 | the expected expansion of a format written for texts and placeholders is those texts with the arguments between them, percent signs included |
| Formatter.ThrowsIff | src/xsix/fmt.hpp:57-65 | given room, any format throws exactly when placeholders outnumber the arguments, or use them up with an escape still to come |
| Formatter.IdealIffSound | src/xsix/fmt.hpp:97-123 | given room, for every format and argument list, the expected expansion comes out exactly when there are arguments to spare and no escape has anything after it, or exactly enough and no escape |
| Formatter.AlwaysIdealIffSound | src/xsix/fmt.hpp:97-123 | the same calls are exactly the ones that come out as expected in every buffer size |
| Formatter.EscapeIsLost | src/xsix/fmt.hpp:101-105 | "%%a%" with "x" gives "ax" instead of "%ax" |
| Tokenizer.Split | src/xsix/utils/string_utils.hpp:11-24 | terminates and returns the texts of the runs, for every input and delimiter set |
| Tokenizer.RunsAreMaximal | src/xsix/utils/string_utils.hpp:15-22 | the runs are exactly the maximal delimiter-free runs, from left to right |
| Tokenizer.TokensAreMaximalRuns | src/xsix/utils/string_utils.hpp:11-24 | each token is the text of its maximal run and together they are the input without its delimiters |
| Tokenizer.SplitAfterJoin | src/xsix/utils/string_utils.hpp:11-24 | splitting undoes joining for non-empty tokens free of the delimiter |

## Left out

- RingBuffer.Buffer.constructor: initial sizes above 64 are excluded, because the code never returns from them (RingGrowth.GrowthTerminatesIff).
- RingBuffer.Buffer.Append: sizes whose sum with the length overflows int32 are excluded, because the addition is undefined there.
- StreamBuf.EveryCallIsAQueueCall: runs with a commit or consume of more than 2^31 - 1 bytes are left out, because the code does not do the documented thing there (StreamBuf.Buffer.Commit, StreamBuf.Buffer.Consume).
- StreamBuf.RefinesBoundedQueue: commits beyond what was prepared are left to StreamBuf.EveryCallIsAQueueCall, because the bytes they add are whatever stands in the vector.
- StreamBuf.Buffer.Consume: pointer arithmetic does not wrap round the address space for counts near the largest size_t.
- Formatter.FmtString: arguments are given as their rendered, NUL-free text; rendering of numbers is `std::to_string` and is not modelled.
- ActorScheduler.DispatchesAreSpaced: timestamps are unbounded integers, so the subtraction does not overflow int64.
- BufferCopy.ManyToManyUpTo: target pieces are separate arrays; overlapping targets are not modelled.
- Tokenizer.Split: the overload that fills a caller's vector is the same loop after a clear and has no member of its own.
- The ring buffer's string constructor, `copy_from`, `retrieve_all_as_string` and `get_debug_text`: the allocation and the recorded capacity differ, or they only print.
- Short reads, beyond the lemma that shows what one does: the chat theorems assume that a read fills its buffer.
- Announcements longer than 1024 bytes: the code overruns the content buffer, so the room takes no such step.
- Lifetimes of buffers and connections across asynchronous calls, the memory model, and the unlocked `BlockQueue::empty`: outside atomic steps.
- `register_actor`, `ThreadSafeList`, trims, prefix and suffix tests, bit helpers, durations and timestamps: only easy members.
- Sockets, acceptors, timers, executors and the other Asio wrappers: input and output, or declarations over code not shown.
- The logger and `math_utils.hpp`: they decide no general property.
- The echo examples: no framing or queue state beyond the chat protocol.
