# simple_messenger in Dafny

A model of the message paths of simple_messenger and proofs about whole runs of it: the reliable-UDP
endpoints, the worker pool, the mailbox server, the ring buffer under all three, and the codec that
carries envelopes between them.

| file | models |
|---|---|
| `CircularBuffer.dfy` | the ring buffer: an abstract bounded FIFO (`Fifo`) and the class that refines it |
| `Envelope.dfy`, `Protobuf.dfy`, `MessageProcessing.dfy`, `EndpointBase.dfy` | the codec: envelope, wire format, conversion, framing in reused buffers |
| `UdpProtocol.dfy` | the endpoints and their network as one transition system |
| `UdpSafety.dfy`, `UdpOrdering.dfy`, `UdpQueues.dfy`, `UdpExpiry.dfy`, `UdpLookup.dfy`, `UdpTiming.dfy` | its theorems |
| `UdpRuns.dfy` | pieces from which runs that show what can happen are built |
| `UdpEndpoint.dfy` | the endpoint as a class, on the concrete ring and codec buffers |
| `ThreadPool.dfy`, `ThreadPoolProgress.dfy`, `ThreadPoolShutdown.dfy`, `ThreadPoolEnding.dfy`, `ThreadPoolJam.dfy`, `ThreadPoolTasks.dfy` | the worker pool as a transition system and its theorems |
| `ThreadManager.dfy` | the pool's critical sections as a class |
| `Mailbox.dfy`, `GrpcServer.dfy` | the mailbox server as a transition system and as a class |

`dafny verify dfyconfig.toml` checks everything.

## How the system is modelled

- The wire format is that of the Protocol Buffers Encoding specification (sections "Base 128
  Varints", "Message Structure", "Length-Delimited Records", "Submessages", "Last One Wins"). The
  decoder accepts fields in any order, unknown fields, repeated scalars and merged submessages.
- Each protocol appears twice. The classes keep the source's fields, loops and in-place updates and
  are proved without interference against functions on sequences and maps. The transition systems
  interleave steps that are made of the same functions.
- A step of the UDP system is one queue operation, one datagram sent or received, or one completed
  sleep. `push` and `pop` are atomic, since they hold `rw_mtx`, and so is `sendDataGram`, although
  the source shares `buffer_out` between two threads without a lock. There is any number of
  endpoints. The network keeps its datagrams in sending order; delivery may pick any of them and may
  leave a copy behind, and any of them may be lost. The ordering theorem restricts delivery to the
  oldest datagram of a pair, without copies.
- A step of the pool is one operation on the mutex, the condition variable or the shared state. The
  numbers of workers and clients and the capacity are arbitrary, tasks may schedule tasks, and
  wake-ups may be spurious.
- In the mailbox server the online check and the map access that follows it are two steps. The map
  lookup and the push or pop on the cell form one step.
- Some entries carry positions in a log of accepted messages, and states carry histories (`log`,
  `received`, `endings`, `accepted`, `popped`, `done`, `events`, `pushed`, ...). The source has none
  of them and no step depends on one.
- A newly connected user gets an empty cell. That is the evident intent: the move constructor of the
  ring buffer (common/utilities/CircularBuffer.hpp:27-32) leaves the positions and the size unset.
- Sleeps are counted as requested. The clock, the authentication and the contents of tasks are
  parameters.

## Where the code falls short of what it is for

Each of these is proved in both directions, so the condition is the exact one.

- A sender can stop without its message having been delivered. For any messages that applications may
  send, this happens in some run if and only if two of them clash: one sender uses a stamp twice and
  the first of the two messages has an addressee who can acknowledge it, or an application sends an
  ACK-typed envelope, which sendEnvelope does not prevent, with the stamp of a message of its addressee
  (`UdpSafety.AcksAreRightIff`). This presumes declared message types. An undeclared one after an ACK
  travels as an ACK-typed envelope, too (`EndpointBases.UndeclaredTypeAfterAck`), and the transition
  system has no such messages.
- Tasks that call schedule_task can block all workers on a full queue for ever. That is the only way
  in which queued work gets stuck (`ThreadPoolProgress.PopPossibleIff`), there is no other state from
  which the destructor cannot end (`ThreadPoolEnding.DestructorCanEndIff`), and it happens with any
  number of workers and cells (`ThreadPoolProgress.StuckIsReachable`). Even without new calls a pool can
  still get into that state, exactly if a task waits for room and clients inside schedule_task can
  fill the queue (`ThreadPoolJam.JamPossibleIff`).
- A handler that found a user online can bring him back online after his logout
  (`Mailbox.LoggedOutUserComesBack`). Online differs from logged in exactly for the users for whom
  some handler did so and who have neither logged in nor out since (`Mailbox.OnlineIff`).
- An enumeration value without an enumerator lets the type of an earlier message through
  (`EndpointBases.WireRoundTripIff`).
- The ring buffer's `operator[]`, which has no caller, reads wrong cells unless the buffer starts at
  cell 0 or is full (`CircularBuffers.IndexAgreesWithFifoIff`).

## Model

| member | source | states |
|---|---|---|
| UdpSafety.AckSafety | common/endpoint/UdpEndpointBase.cpp:89-165 | In every run over a network that loses, duplicates and reorders, with distinct stamps per sender and no forged ACKs, a message that an ACK ended was popped by its addressee's application: that very message, in its normal form. |
| UdpSafety.AckMeansNamesakeDelivered | common/endpoint/UdpEndpointBase.cpp:108-165 | In every run without any assumption, the ACK that ended a message belongs to a message of the same sender and stamp that was popped by its addressee, or was forged by an application. |
| UdpSafety.StepKeeps | common/endpoint/UdpEndpointBase.cpp:29-165 | The invariant over queues, network, program counters and histories behind both is kept by every step. |
| UdpSafety.AcksAreRightIff | common/endpoint/UdpEndpointBase.cpp:89-165 | For any number of endpoints and any set of sendable messages, accepted in any order: every run ends messages rightly if and only if no two of them clash (a stamp reused by a sender whose first message can be acknowledged, or an ACK-typed envelope with the stamp of a message of its addressee). |
| UdpSafety.AcceptedAsOffered | common/endpoint/UdpEndpointBase.cpp:29-39 | In every run the accepted messages are, in order, those offered while outQueue held fewer than four, each as it was offered but for the stamp, which is that of its own acceptance. |
| UdpTiming.AckSafetyByClock | common/message_processor/MessageProcessing.hpp:40-45 | If each sender's clock readings ascend strictly within a window of 2^32 us, stamps are distinct and ACK safety holds. |
| MessageProcessing.StampsCollideIff | common/message_processor/MessageProcessing.hpp:40-45 | Two readings get one stamp if and only if they are a multiple of 2^32 us apart, and a reading of 32 bits is its own stamp. |
| UdpOrdering.ReceivedInOrder | common/endpoint/UdpEndpointBase.cpp:61-67 | Over lossy FIFO channels, each application receives the messages of each peer in the order of their acceptance, copies adjacent, none more than five times, despite retransmission and eviction; and what is received under an id is the normal form of that accepted message. |
| UdpOrdering.MessagesAreTriedInOrder | common/endpoint/UdpEndpointBase.cpp:29-106 | In every run, the messages that an outQueue has accepted are, in order, those its sender has ended, the one it is busy with and those still queued: none is skipped, lost or tried twice. |
| UdpOrdering.PipelineStep | common/endpoint/UdpEndpointBase.cpp:61-67 | Every step but a transmission leaves a sub-multiset, still sorted if it was, of what is on its way between two endpoints. |
| UdpOrdering.TransmitPipeline | common/endpoint/UdpEndpointBase.cpp:78-87 | A transmission adds its message at the end of the pipeline of its pair and nowhere else. |
| UdpLookup.LookupBound | common/endpoint/UdpEndpointBase.cpp:97-123 | Along every continuation in which no overflow evicts this entry, a matching ACK at index i before the check of attempt a, a + i <= bound <= 4, stays within reach until the message is ended by an ACK at attempt `bound` or before; the message is never given up. |
| UdpLookup.EarlyAckIsWithinReach | common/endpoint/UdpEndpointBase.cpp:97-123 | An ACK queued before the check of attempt 0 or 1 is always within reach of the five attempts, wherever it stands. |
| UdpLookup.OutOfReachIsGivenUp | common/endpoint/UdpEndpointBase.cpp:97-123 | The bound is exact: if no ACK within reach matches and the listener stores nothing, no continuation ends the message by an ACK; it is still being tried or was given up with attempt 4. |
| UdpQueues.EvictionLoopsEnd | common/endpoint/UdpEndpointBase.cpp:61-76 | In every run the ACK loop needs at most two evictions and the envelope loop at most one, whatever the sender pops and re-queues in between; then there is room. |
| UdpQueues.TwoEvictionsHappen | common/endpoint/UdpEndpointBase.cpp:69-76 | The bound of two is attained in a run, for any two messages of a sender with different stamps. |
| UdpExpiry.AcksExpire | common/endpoint/UdpEndpointBase.cpp:108-123 | From every reachable state, after twelve checks between which the listener stores nothing, no ACK is left in the queue or in the sender's hands, whichever stamps they look for and whatever else interleaves. |
| UdpExpiry.EntryIsExaminedThrice | common/endpoint/UdpEndpointBase.cpp:69-123 | Along every continuation of every run, arrivals and evictions included, an entry is examined without a match at most as often as its counter says, at most three times, and is dropped for not matching exactly when it has used them all; until then it is kept unless it matches or an overflow takes it. |
| UdpExpiry.CheckCostsLives | common/endpoint/UdpEndpointBase.cpp:108-123 | A check of a non-empty queue lowers the sum of its counters and keeps every counter in 1..3. |
| UdpQueues.RunBounded | common/endpoint/UdpEndpointBase.hpp:18-29 | In every run the queues hold at most four entries, counters stay in 1..3 and attempts below five. |
| UdpTiming.SenderLatency | common/endpoint/UdpEndpointBase.cpp:89-130 | In every run, a message occupies the sender for at most 1500 ms of sleep, 50 k (k+1) after k checks; a first transmission comes within (j+1) * 1501 ms of the acceptance at index j, and no message is still in outQueue after that. |
| UdpTiming.SleptExactly | common/endpoint/UdpEndpointBase.cpp:97-130 | In every run the time slept is the exact sum of 1 ms per look into outQueue and, after each transmission, 100 ms times the transmissions of this message so far. |
| UdpTiming.OneSleepPerLook | common/endpoint/UdpEndpointBase.cpp:125-130 | In every run each look into outQueue has its own sleep before it. |
| UdpTiming.GivesUpAfterFive | common/endpoint/UdpEndpointBase.cpp:97-105 | In every run a message ends after at most five transmissions, and after exactly five if no ACK has ended it. |
| UdpRuns.LostMessageIsGivenUp | common/endpoint/UdpEndpointBase.cpp:97-106 | The network can lose all five transmissions of any message, which is then given up undelivered. |
| UdpProtocol.UninterruptedCheck | common/endpoint/UdpEndpointBase.cpp:108-123 | The pop and re-queue steps in a row are checkAckQueue. |
| UdpProtocol.UninterruptedArrival | common/endpoint/UdpEndpointBase.cpp:61-148 | A datagram, with nothing in between, puts its stamp at the end of the ACK queue with three lives, or its envelope at the end of the incoming queue, at the cost of the oldest of four. |
| UdpProtocol.UninterruptedStoreAck | common/endpoint/UdpEndpointBase.cpp:69-76 | The store and evict steps in a row append the ACK and drop the oldest entry exactly when the queue is full. |
| UdpProtocol.UninterruptedStoreEnv | common/endpoint/UdpEndpointBase.cpp:61-67 | The same for incoming envelopes. |
| UdpEndpoints.UdpEndpoint.SendEnvelope | common/endpoint/UdpEndpointBase.cpp:29-39 | Appends the stamped envelope exactly when outQueue has room, and says whether it did. |
| UdpEndpoints.UdpEndpoint.StoreEnvToInQueue | common/endpoint/UdpEndpointBase.cpp:61-67 | The loop ends with the envelope last in inQueue, at the cost of the oldest one if the queue was full. |
| UdpEndpoints.UdpEndpoint.StoreTstampToAckQueue | common/endpoint/UdpEndpointBase.cpp:69-76 | The same for a fresh ACK in ackQueue. |
| UdpEndpoints.UdpEndpoint.SendDataGram | common/endpoint/UdpEndpointBase.cpp:78-87 | One datagram goes to the peer, who decodes the normal form of the envelope, whatever the reused buffers held, if and only if its enumerations are in range. |
| UdpEndpoints.UdpEndpoint.CheckAckQueue | common/endpoint/UdpEndpointBase.cpp:108-123 | The oldest ACK is taken out; it matches, or goes to the end with one life less if it has one left. The abstract check does the same. |
| UdpEndpoints.UdpEndpoint.TryUntilAcked | common/endpoint/UdpEndpointBase.cpp:97-105 | For any ACKs that arrive during the back-offs, the message is sent five times, or one to five times if an ACK ends it; no ACK ends it that was not there, and one at index i of the queue ends it with transmission i + 1 if no others arrive. The sleep is 50 k (k+1) <= 1500 ms for k transmissions. |
| UdpEndpoints.UdpEndpoint.SendEnvFromOutQueue | common/endpoint/UdpEndpointBase.cpp:89-106 | Takes the oldest message off outQueue and tries it in this way; an empty queue changes nothing. |
| UdpEndpoints.UdpEndpoint.DispatchIncomingEnv | common/endpoint/UdpEndpointBase.cpp:132-138 | ACKs go to ackQueue with three lives, everything else to inQueue; the other queue is untouched. |
| UdpEndpoints.UdpEndpoint.RecvDataGram | common/endpoint/UdpEndpointBase.cpp:41-59 | The envelope is what the received bytes decode to, with the sender's address. |
| UdpEndpoints.UdpEndpoint.TryReceiveEnvelope | common/endpoint/UdpEndpointBase.cpp:150-165 | Hands out the oldest envelope and sends its peer exactly one datagram, which decodes to the ACK with its stamp. |
| ThreadPool.WaitersAreWoken | common/thread_manager/ThreadManager.cpp:11-61 | No lost wake-up: while a worker waits although there is work or a shutdown, some thread is on its way to notify_all. |
| ThreadPool.SpuriousWakeIsHarmless | common/thread_manager/ThreadManager.cpp:15-18 | A spurious wake-up with nothing to do makes the worker test and wait again, and leaves the state as it was. |
| ThreadPool.TasksAreConserved | common/thread_manager/ThreadManager.cpp:15-59 | In every run the scheduled tasks are the popped ones, in order, followed by the queue; no task is held twice, lost, or returns twice. |
| ThreadPoolTasks.ScheduledTasksAreAccepted | common/thread_manager/ThreadManager.cpp:48-59 | In every run every task has been accepted exactly as often as schedule_task was called with it, but for the calls that still carry it. |
| ThreadPoolTasks.CallersCarryTheirTask | common/thread_manager/ThreadManager.cpp:48-59 | In every run whoever is inside schedule_task carries the argument of his last call, after any number of back-offs, until he has pushed it. |
| ThreadPool.CriticalSectionsAreSafe | common/thread_manager/ThreadManager.cpp:24-57 | In every run the push in schedule_task finds room and pop().value() finds a task. |
| ThreadPool.ExitLeavesNothingBehind | common/thread_manager/ThreadManager.cpp:20-25 | Along every run, once a worker has exited, is_running is false and every task that was accepted while this worker was still there has been popped. |
| ThreadPool.DrainedExactly | common/thread_manager/ThreadManager.cpp:36-46 | Once all workers have exited, the queue holds exactly what was pushed after the last exit, and everything accepted before was run once. |
| ThreadPool.EverythingWasRun | common/thread_manager/ThreadManager.cpp:36-46 | If after the stop only tasks on workers push, then once all workers have exited the queue is empty and every accepted task was run exactly once. |
| ThreadPool.StepKeeps | common/thread_manager/ThreadManager.cpp:10-62 | Mutual exclusion, what the owner of the mutex has found out, wake-ups, task accounting and draining are kept by every step. |
| ThreadPoolProgress.PopPossibleIff | common/thread_manager/ThreadManager.cpp:48-57 | In a reachable state with queued work, some continuation without spurious wake-ups pops a task if and only if the pool is not stuck. |
| ThreadPoolProgress.StuckForEver | common/thread_manager/ThreadManager.cpp:51-56 | A stuck pool stays stuck and pops nothing in any continuation. |
| ThreadPoolProgress.PopPossibleWithoutNestedCalls | common/thread_manager/ThreadManager.cpp:11-28 | If no task body is inside schedule_task and a worker is left, queued work can be popped. |
| ThreadPoolProgress.StuckIsReachable | common/thread_manager/ThreadManager.cpp:48-57 | For any positive numbers of workers, cells and clients, tasks that call schedule_task on a queue that clients have filled get the pool stuck with queued work. |
| ThreadPoolShutdown.ShutdownTerminates | common/thread_manager/ThreadManager.cpp:36-46 | From every reachable state with is_running false, a run without new calls, spurious wake-ups included, has at most Measure(s) steps that do more than wait for room, at most Measure(s) steps in all if nobody waits for room in s, and otherwise three more per full test; one that has come to rest has ended the destructor. |
| ThreadPoolShutdown.PoolComesToRest | common/thread_manager/ThreadManager.cpp:11-28 | From every reachable state, running or not, a run without new calls and spurious wake-ups is bounded likewise, and at rest with a worker left the queue is empty and every accepted task was run exactly once. |
| ThreadPoolShutdown.StepLowers | common/thread_manager/ThreadManager.cpp:12-58 | Every step of any thread that is no new call lowers the measure, or is a waiting step of a caller (lock, full test, end of the back-off) that leaves it as it is. |
| ThreadPoolShutdown.ShutdownNeverHangs | common/thread_manager/ThreadManager.cpp:36-46 | In a shutdown, until the destructor has returned, some step that is no spurious wake-up is enabled. |
| ThreadPoolEnding.DestructorCanEndIff | common/thread_manager/ThreadManager.cpp:36-59 | From any reachable state of a pool with at least one cell, running or not, some continuation without new calls and spurious wake-ups ends the destructor if and only if the workers have not blocked each other; if they have, no continuation does. |
| ThreadPoolJam.JamPossibleIff | common/thread_manager/ThreadManager.cpp:11-59 | From any reachable state of a pool with at least one cell, a run without new calls can get the workers to block each other if and only if a task waits for room and pending pushes of clients suffice to fill the queue: its free cells if no other worker is left, all cells otherwise. |
| ThreadPoolJam.EndIsInevitableIff | common/thread_manager/ThreadManager.cpp:36-59 | The destructor can still end whatever a run without new calls does first, if and only if no such run can block the workers. |
| ThreadPoolShutdown.DestructorJoinsAll | common/thread_manager/ThreadManager.cpp:42-45 | In every run the destructor ends only after all workers have exited. |
| ThreadManagers.ThreadManager.TakeTask | common/thread_manager/ThreadManager.cpp:15-25 | With the mutex held: the oldest task is taken; with none, the worker waits while the pool runs and exits when it does not. |
| ThreadManagers.ThreadManager.TrySchedule | common/thread_manager/ThreadManager.cpp:51-57 | One round of schedule_task appends the task exactly when there is room. |
| ThreadManagers.ThreadManager.StopAndDrain | common/thread_manager/ThreadManager.cpp:12-39 | The destructor's critical section followed by a worker's loop runs exactly the queued tasks, oldest first, and leaves the queue empty. |
| ThreadManagers.SectionIsTakeTask | common/thread_manager/ThreadManager.cpp:15-25 | The worker's steps inside the mutex, in a row, are that critical section. |
| Mailbox.MailIsConserved | server_app/endpoint/GrpcServer.cpp:49-119 | In every run with split steps and for every user: accepted mail is, in order, what streams popped or logouts discarded followed by the cell; all of it is addressed to the user and in normal form; what streams wrote decodes to what they popped, in order; a cell holds at most 32. |
| Mailbox.DeliveredAsReceived | server_app/endpoint/GrpcServer.cpp:49-74 | In every run with split steps every envelope is pushed to a cell at most as often as it was received, and exactly as it was decoded. |
| Mailbox.StreamsServeTheirUser | server_app/endpoint/GrpcServer.cpp:76-107 | In every run with split steps a stream serves the user it was opened for, and the records written for a user are, in order, those that his own streams took from his cell. |
| Mailbox.UninterruptedReceive | server_app/endpoint/GrpcServer.cpp:49-74 | Without interference the two steps of a delivery do what receiveMessage does, with 32 envelopes to a cell. |
| Mailbox.UninterruptedRound | server_app/endpoint/GrpcServer.cpp:93-107 | Without interference a round ends the stream of an offline user, and otherwise pops the oldest envelope and writes its record. |
| Mailbox.UninterruptedOpening | server_app/endpoint/GrpcServer.cpp:76-99 | A stream can be opened for any user; it ends without a trace if he is offline, and starts with a fresh record otherwise. |
| Mailbox.ExitIsSpelled | server_app/endpoint/GrpcServer.cpp:58-62 | A payload logs its sender out if and only if it begins with the letters of "exit" and a NUL. |
| Mailbox.OnlyAcceptedUsers | server_app/endpoint/GrpcServer.cpp:63-100 | In every run with split steps the post box holds only users who have passed acceptConnection, in spite of the inserting access. |
| Mailbox.OnlineIff | server_app/endpoint/GrpcServer.cpp:111-124 | For each user, online agrees with "last login later than last logout" if and only if no handler has accessed the map for the user while he was logged out with no login or logout of his since. |
| Mailbox.OnlineMeansLoggedIn | server_app/endpoint/GrpcServer.cpp:41-124 | With check and access never separated, a user is online exactly when the last login is later than the last "exit". |
| Mailbox.LoggedOutUserComesBack | server_app/endpoint/GrpcServer.cpp:58-67 | With split steps this fails for any user, message and logout: the pending delivery re-creates the cell. |
| GrpcServers.GrpcEndpointServer.AcceptConnection | server_app/endpoint/GrpcServer.cpp:39-46 | An authenticated user gets an empty cell or keeps the one he has; anybody else changes nothing. |
| GrpcServers.GrpcEndpointServer.ReceiveMessage | server_app/endpoint/GrpcServer.cpp:49-74 | "exit" removes the sender's cell; otherwise the decoded envelope is appended to the recipient's cell exactly when the recipient is online and has room, and the status says so. |
| GrpcServers.GrpcEndpointServer.StreamOnce | server_app/endpoint/GrpcServer.cpp:93-107 | One round pops the user's oldest envelope and writes its record through the reused one; an offline user ends the stream. |
| GrpcServers.GrpcEndpointServer.DisconnectUser | server_app/endpoint/GrpcServer.cpp:116-119 | Removes the cell of this user and no other. |
| EndpointBases.WireRoundTripIff | common/endpoint/EndpointBase.cpp:70-89 | For any stale record and buffer, decoding the first message_size bytes gives the normal form of the envelope if and only if its enumerations are in range. |
| EndpointBases.UndeclaredTypeAfterAck | common/message_processor/MessageProcessing.hpp:63-101 | An envelope with an undeclared message type that goes through the record after an ACK decodes as an ACK with its own time stamp. |
| EndpointBases.NothingStaleShows | common/endpoint/EndpointBase.cpp:70-78 | Over any run of sends through one record and one buffer, each datagram decodes to the normal form of its own envelope, in order. |
| EndpointBases.EndpointBase.PutEnvToProtoBufferOut | common/endpoint/EndpointBase.cpp:70-78 | The buffer's prefix becomes the encoding, its tail stays, and the size fields of the record stay unset. |
| EndpointBases.EndpointBase.GetEnvFromProtoBufferIn | common/endpoint/EndpointBase.cpp:80-89 | Returns what the first message_size bytes decode to, whether or not parsing met an error. |
| MessageProcessing.RecordRoundTripIff | common/message_processor/MessageProcessing.hpp:63-141 | Reading back a record gives the normal form, whatever it held before, if and only if the enumerations are in range. |
| MessageProcessing.EnvFromProtoIsNormal | common/message_processor/MessageProcessing.hpp:104-141 | Whatever is read from a record is in normal form with declared enumerators. |
| MessageProcessing.EnvFromProtoReads | common/message_processor/MessageProcessing.hpp:104-141 | Identifiers, stamp and C-string payload are those of the record, and an unknown enumeration value reads as the first enumerator. |
| MessageProcessing.UndeclaredShowsStale | common/message_processor/MessageProcessing.hpp:63-92 | After an envelope was put into a record, an enumeration without an enumerator reads as what the record held before, any other as the envelope's own. |
| MessageProcessing.PutEnvToProtoBuf | common/message_processor/MessageProcessing.hpp:63-102 | Writes type, stamp, ids and C-string payload; unknown enumerators and the size fields keep their old values. |
| MessageProcessing.EncodedSizeBound | common/message_processor/MessageProcessing.hpp:94-101 | No envelope needs more than 1014 of the 1024 bytes, so the error branch is dead. |
| MessageProcessing.EncodedSizeIsTight | common/message_processor/MessageProcessing.hpp:97-101 | 1014 is attained, and the size fields, if they were set, would come on top. |
| Protobuf.SerializeRoundTrip | common/interfaces/proto_defines.proto:16-33 | Parsing inverts serializing on every record of the schema, with any scalars and any submessages present or absent. |
| Protobuf.HeaderOnTheWire | common/interfaces/proto_defines.proto:16-21 | The header is written as the schema's field numbers, in ascending order, each exactly when it is not zero. |
| Protobuf.MetaOnTheWire | common/interfaces/proto_defines.proto:23-28 | The same for the meta record, with the header as a submessage exactly when it is present. |
| Protobuf.EnvelopeOnTheWire | common/interfaces/proto_defines.proto:30-33 | The same for the envelope. |
| Protobuf.LastScalarWins | common/interfaces/proto_defines.proto:16-21 | Whatever fields come in whatever order, the last occurrence of each header scalar counts and the rest is skipped. |
| Protobuf.MetaIsMerged | common/interfaces/proto_defines.proto:23-28 | The same for the meta record, whose header is what all header submessages merge to. |
| Protobuf.EnvelopeIsMerged | common/interfaces/proto_defines.proto:30-33 | The same for the envelope, with the last payload and what all meta submessages merge to. |
| Protobuf.ParseStopsAtError | common/endpoint/EndpointBase.cpp:80-89 | A message that ends in a malformed field parses to what the fields before it merge to, and the result reports the error. |
| Protobuf.MetaStopsAtError | common/endpoint/EndpointBase.cpp:80-89 | If the header submessage has an error in it, the header fields before the error are merged and nothing after it is read. |
| Protobuf.EnvelopeStopsAtError | common/endpoint/EndpointBase.cpp:80-89 | The same for the meta submessage. |
| Protobuf.MalformedTags | common/endpoint/EndpointBase.cpp:80-89 | A field number 0 and the wire types 3, 4, 6 and 7 are errors. |
| Protobuf.FieldsRoundTrip | common/interfaces/proto_defines.proto:16-33 | Every sequence of valid fields, known to the schema or not, is read back from its encoding. |
| Protobuf.VarintSize | common/interfaces/proto_defines.proto:17-27 | k bytes are enough for a varint if and only if its value is below 128^k. |
| Protobuf.EncodingExamples | common/interfaces/proto_defines.proto:16-33 | The bytes that the Encoding specification gives as examples of a varint field and of a length-delimited field. |
| Protobuf.Int32IsCut | common/interfaces/proto_defines.proto:5-14 | An enumeration value is the varint modulo 2^32, as a signed number. |
| Envelopes.NormalFormKeeps | common/message_processor/MessageProcessing.hpp:104-141 | The normal form keeps type, stamp, identifiers and every payload byte before the first NUL, and nothing else. |
| Envelopes.NormalFormIdempotent | common/message_processor/MessageProcessing.hpp:136-139 | Normalizing twice changes nothing more. |
| Envelopes.AckEnvelopeIsNormal | common/endpoint/UdpEndpointBase.cpp:157-159 | An ACK envelope has type 2 and the given stamp and is zero elsewhere, and is already in the form that the wire preserves. |
| CircularBuffers.CircularBuffer.Push | common/utilities/CircularBuffer.hpp:54-69 | Appends to the represented queue exactly when it is not full, and says whether it did. |
| CircularBuffers.CircularBuffer.Pop | common/utilities/CircularBuffer.hpp:71-84 | Removes and returns the oldest item, nothing on an empty buffer. |
| CircularBuffers.CircularBuffer.EndIsBeginPlusSize | common/utilities/CircularBuffer.hpp:54-84 | end_pos is (begin_pos + size) modulo the length, and both positions are in range. |
| CircularBuffers.SliceGrows | common/utilities/CircularBuffer.hpp:57-62 | Writing the cell after the wrapped slice appends to the queue that the slice represents. |
| CircularBuffers.IndexAgreesWithFifoIff | common/utilities/CircularBuffer.hpp:44-52 | operator[] reads the right cell for every index if and only if begin_pos is 0 or the buffer is full. |
| Fifo.ReplayIsFifo | common/utilities/CircularBuffer.hpp:54-84 | Over every run of pushes and pops, accepted items are the popped ones in order followed by the contents. |
| Fifo.FillAndDrain | common/utilities/CircularBuffer.hpp:54-84 | As many pushes as the capacity are accepted and the next ones refused; pops then return the items in order, and nothing after the last. |

## Left out

- Sockets, polling, binding, the TCP endpoints and their server: I/O wrappers; the network is abstract and delivers datagrams intact or not at all.
- The gRPC runtime, client program, logger and user interface: plumbing; writer->Write is a history.
- PostgreSQL and authentication: acceptConnection takes the answer of the authentication as a parameter.
- Data races on memory: the steps above are atomic, and references into an erased map cell do not occur.
- The loops of repeatingSend, repeatingListen, the workers, schedule_task and streamIncomingMessages are steps of the transition systems, since they run for ever or wait for other threads; the classes hold their bodies.
- Destruction of a UDP endpoint with queued mail, the singletons, get_payload and set_payload, and the build tooling.
- Envelope is a value type: the source copies it everywhere, and its setters change local copies only.
- UdpProtocol: applications send no envelope with an undeclared enumerator; `EndpointBases.WireRoundTripIff` and `EndpointBases.UndeclaredTypeAfterAck` say what becomes of such an envelope.
- UdpEndpoints.UdpEndpoint.TryUntilAcked: the ACKs that arrive during the back-offs are a parameter, because the method runs without the listener thread; `UdpLookup.LookupBound` has the interleaved version.
- UdpEndpoints.UdpEndpoint.SendEnvFromOutQueue: the same.
- UdpEndpoints.UdpEndpoint.SendDataGram: requires a NUL in the payload, because the source reads it as a C string.
- EndpointBases.EndpointBase.PutEnvToProtoBufferOut: the same.
- MessageProcessing.PutEnvToProtoBuf: the same.
- EndpointBases.EndpointBase.GetEnvFromProtoBufferIn: requires message_size to be at most 1024 and the decoded C string to fit the payload field, because the source reads and copies unchecked.
- UdpEndpoints.UdpEndpoint.RecvDataGram: the same.
- GrpcServers.GrpcEndpointServer.ReceiveMessage: requires the decoded C string to be shorter than the payload field, because the source copies it unchecked and then reads the payload as a C string; so do the receiving steps of `Mailbox`.
- Protobuf.FieldsRoundTrip: the reader treats the deprecated group wire types as errors, where the library skips well-formed unknown groups; the schema has none.
- ThreadPoolShutdown.ShutdownTerminates: does not bound the waiting steps of callers, because no scheduler is modelled that would keep a caller from testing a full queue again and again; `ThreadPoolJam.EndIsInevitableIff` says when the end stays within reach whatever they do.
