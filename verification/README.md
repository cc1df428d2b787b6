# Channel SDK: a verified model

This project models the message channel between named nodes in Dafny and proves what the channel promises: what is
sent arrives, in order, without invention; nobody waits for a signal that was already given; start-up does not
deadlock; and the printed configuration means what the configuration means.

| file | what it holds |
|---|---|
| `Bytes.dfy` | bytes, messages, concatenation |
| `Framing.dfy` | the frame format and its decoding under any chunking |
| `CycleBuffer.dfy` | the growable ring buffer as a class over an array, proved to be a FIFO byte sequence |
| `Mailbox.dfy` | what a mailbox means in both builds, and its laws over every run |
| `Connections.dfy` | the two builds of `ClientConnection` as classes, with the receive loop and its deadline |
| `ReceiveWait.dfy` | the mailbox monitor: any number of receivers and writers, wake-ups, timeouts |
| `WorkQueue.dfy` | the asynchronous server's work queue, as a state machine and as a class that takes its steps |
| `Topology.dfy` | who dials whom, as sets and as the loops that compute them |
| `Handshake.dfy` | the distributed start-up protocol |
| `PolicyText.dfy`, `PolicyParser.dfy` | the policy printer, a parser for its language, and reading the text back |
| `Retry.dfy` | the timed retry loops |
| `Servant.dfy` | dispatch by source node |
| `Delivery.dfy` | the whole system: retrying senders, lossy calls, both servers, mailboxes |

The pieces compose. `Delivery` takes its links from `Topology` (duality makes every link between distinct nodes a
registered one), its receiving end is the work queue's monitor (`WorkQueueIsServer`), a retry loop is one send on a
link (`RetriesAreSends`), and its mailboxes obey `Mailbox.Conservation`, so the end-to-end law reaches from the call of
`send` to the bytes handed to `recv`.

## How the code is read

- Each section under a mutex is one step. The predicate a section waits for is the precondition of its method:
  `CycleBuffer.Read` and `CycleBuffer.Append` are called by `BufferedConnection` only where the predicate already
  holds, so the inner waits of the buffered build never block while the mailbox mutex is held.
- Clocks, sleeps, remote calls and thread schedules are inputs. A call attempt is dispatched before its outcome is
  seen, or never; one client object sends one message at a time.
- Integers are unbounded, and capacities carry their 32-bit bound explicitly (`CanHold`, `Grown`). Lengths are below
  2^31.
- Sets are visited in the order of `std::set<string>` where that shows (the printer), and in any order elsewhere.

Five things the code does that its users may not expect are stated as laws, with the exact condition:

- A policy may let a node dial itself. Such a node has itself as a server and never as a client. If it has no other
  client, or its server is asynchronous, start-up blocks on it (`StartupCompletes`); otherwise the synchronous server
  answers such a send with success and drops the data (`DeliveryHoldsExactly`).
- Printing the policy and using the text as the policy changes the views when a client of a task node is not itself a
  task node, and makes a full mesh of one node an error (`PrintedPolicyIsFaithful`).
- An empty message at the front of a mailbox is handed over by the queue build, and by the buffered build only if a
  byte is queued behind it (`EmptyMessageTellsBuildsApart`, `BuildsAgree`).
- A receive that times out does not look again, so it leaves the message it waited for if, since its last look, writers
  have brought enough more than other receivers took (`TimeoutMissesMessage`).
- An attempt to send the start-up flag that fails late leaves a stray flag behind (`StrayFlags`).

## Model

| member | source | states |
|---|---|---|
| CycleBuffers.CycleBuffer.constructor | core/include/cycle_buffer.h:45 | a new buffer is empty |
| CycleBuffers.CycleBuffer.Reset | core/src/cycle_buffer.cc:34-40 | the buffer becomes empty and keeps its array |
| CycleBuffers.CycleBuffer.CanRead | core/src/cycle_buffer.cc:42-45 | true exactly when that many bytes are held |
| CycleBuffers.CycleBuffer.Empty | core/include/cycle_buffer.h:53-57 | true exactly when no byte is held |
| CycleBuffers.CycleBuffer.Peek | core/src/cycle_buffer.cc:57-86 | the destination gets the oldest bytes, nothing past them is touched, the buffer is unchanged; every copy is inside both arrays |
| CycleBuffers.CycleBuffer.ReadLength | core/src/cycle_buffer.cc:93-104 | the signed 32-bit value of the first four bytes, wherever they straddle the end of the array |
| CycleBuffers.CycleBuffer.CanReadFrame | core/src/cycle_buffer.cc:88-110 | true exactly when a header is there and its length does not exceed the held bytes |
| CycleBuffers.CycleBuffer.ReadFrame | core/src/cycle_buffer.cc:112-155 | returns what the held bytes decode to and removes exactly that frame; an incomplete or corrupt one changes nothing |
| CycleBuffers.CycleBuffer.CopyOut | core/src/cycle_buffer.cc:117-142 | the copied bytes are the oldest ones, in one stretch or two |
| CycleBuffers.CycleBuffer.Consume | core/src/cycle_buffer.cc:149-150 | bringing the read position back with `%` removes exactly the given number of oldest bytes |
| CycleBuffers.CycleBuffer.Read | core/src/cycle_buffer.cc:157-193 | the destination gets the oldest bytes and exactly those leave the buffer, in every alignment of the positions |
| CycleBuffers.CycleBuffer.Realloc | core/src/cycle_buffer.cc:195-225 | contents are kept and the requested room is there afterwards; nothing happens if it was there before |
| CycleBuffers.CycleBuffer.CompactInto | core/src/cycle_buffer.cc:206-216 | the held bytes end up in order at the front of the new array |
| CycleBuffers.CycleBuffer.Write | core/src/cycle_buffer.cc:228-263 | the data is appended, whatever wraps or grows |
| CycleBuffers.CycleBuffer.Append | core/src/cycle_buffer.cc:241-260 | with room, the copy branches append the data in place |
| CycleBuffers.GrowthSuffices | core/src/cycle_buffer.cc:202 | the new capacity holds the old contents and the new data, is at least doubled, is at most `length + 2 * n`, and is a multiple of `n` |
| CycleBuffers.CycleBuffer.HoldsAtLeast | core/src/cycle_buffer.cc:195-204 | a write is taken whenever its length and twice the capacity fit 32 signed bits |
| CycleBuffers.UnrollPut | core/src/cycle_buffer.cc:243-256 | storing at the write position appends to the ring's contents in all four alignments |
| CycleBuffers.RunFraming | core/src/cycle_buffer.cc:88-263 | any sequence of writes and framed reads on the buffer gives the results of the pure run, stopping only at a write whose length and twice the capacity exceed 32 signed bits |
| Framing.DecodeWhole | core/src/cycle_buffer.cc:112-155 | a complete frame decodes to itself and leaves the rest |
| Framing.DecodePartial | core/src/cycle_buffer.cc:112-155 | every proper prefix of a frame decodes to nothing |
| Framing.EncodeLayout | core/src/cycle_buffer.cc:117-148 | byte by byte where a frame keeps its length, its id and its data |
| Framing.DecodeIsSound | core/src/cycle_buffer.cc:112-155 | a frame is handed back only if the bytes begin with its encoding, and exactly that encoding is taken |
| Framing.NoFrameYet | core/src/cycle_buffer.cc:112-155 | exactly when a read finds no frame and nothing wrong; a read that hands nothing back changes nothing |
| Framing.ChunkingIsTransparent | core/src/cycle_buffer.cc:88-155 | however a stream of frames is cut and whenever reads fall, the reads hand back the first frames in order, never a corrupt one, and the rest of the stream is left |
| Framing.DrainReadsAll | core/src/cycle_buffer.cc:112-155 | as many reads as frames empty a whole stream |
| Framing.FramingRoundTrip | core/src/cycle_buffer.cc:88-155 | writing any list of frames in any chunks and then reading returns exactly that list |
| Mailbox.Conservation | core/src/client_connection.cc:8-69 | for either build, every run and each id: what was replied to receivers, then what is held, are the bytes written |
| Mailbox.MessagesAreKept | core/src/client_connection.cc:50-54 | in the queue build the messages replied, then those queued, are the messages written, whole and in order |
| Mailbox.ReplyIsFront | core/src/client_connection.cc:42-54 | one reply is the front of what was held: followed by what is left, it is what was there |
| Mailbox.Isolation | core/src/client_connection.cc:8-69 | for each id a run replies and holds as if the operations on other ids had not happened |
| Mailbox.BuildsAgree | core/src/client_connection.cc:21-56 | over every run both builds reply alike if and only if each receive that finds a message asks for the size of the oldest one and some queued message has a byte; then the stream is the concatenation of the queue |
| Mailbox.BuildsAgreeOnNonEmpty | core/src/client_connection.cc:42-56 | when no message is empty, asking for the right sizes is the whole condition |
| Mailbox.EmptyMessageTellsBuildsApart | core/src/client_connection.cc:40-56 | with an empty message at the front, a receive of zero bytes gets the same reply from both builds if and only if some byte is queued behind it |
| Connections.BufferedConnection.Write | core/src/client_connection.cc:8-29 | the mailbox holds the message for its id and is otherwise unchanged |
| Connections.BufferedConnection.TryRecv | core/src/client_connection.cc:39-48 | served exactly when enough bytes are held; then the bytes copied out followed by those left are those held before, otherwise nothing changes |
| Connections.BufferedConnection.HoldsAtLeast | core/src/client_connection.cc:13-22 | a message is taken whenever its length and twice the capacity of its ring, or of the one that would be made, fit 32 signed bits |
| Connections.QueuedConnection.Write | core/src/client_connection.cc:8-29 | the message is queued for its id |
| Connections.QueuedConnection.TryRecv | core/src/client_connection.cc:40-56 | copies out the oldest message of the id, whole, and returns its size: that message followed by those left are those queued before; or does nothing |
| Connections.BufferedConnection.Recv | core/src/client_connection.cc:31-69 | whatever other writers and receivers do during the waits, the call takes the first reply present at a look, after looks that found none, and copies it out; a timeout takes nothing, writes nothing and is not reported before its time; a write that overflows 32 bits ends it |
| Connections.QueuedConnection.Recv | core/src/client_connection.cc:31-69 | the same for the queue build, which never overflows and copies whole messages |
| Connections.DeadlineIsStable | core/src/client_connection.cc:58-62 | the recomputed deadline is the timeout after entry plus the lag between the clock readings, and less than a millisecond more; the wait is for whole milliseconds |
| ReceiveWait.MonitorIsCorrect | core/src/client_connection.cc:10-66 | over every run: no sleeping, unsignalled receiver could be served; no call gives up early; the mailbox is what the effective operations make it |
| ReceiveWait.DeadlineIsTight | core/src/client_connection.cc:36-66 | however many wake-ups there were, a sleeping call's deadline is the timeout after the step that entered it, plus the lag of its last look and less than a millisecond |
| ReceiveWait.NoEarlyTimeout | core/src/client_connection.cc:36-66 | a timeout is never reported before its time, counted from the step that entered the call |
| ReceiveWait.CallsAreAccounted | core/src/client_connection.cc:31-69 | over every run each call entered is in progress, has been served or has given up |
| ReceiveWait.ArrivalsAreWritten | core/src/client_connection.cc:8-29 | over every run what was written to the mailbox is what arrived, in order |
| ReceiveWait.ReadyIsServed | core/src/client_connection.cc:39-56 | whoever else waits, a call for which enough is there can wake, look and be served |
| ReceiveWait.EveryCallCanEnd | core/src/client_connection.cc:58-65 | a call for which nothing is there can give up once its deadline has passed, and changes nothing |
| ReceiveWait.ReadyIffSupplied | core/src/client_connection.cc:39-56 | at every point of every run a call can be served exactly when what was written to its id, less what receivers of it were given, suffices: counted in bytes or in messages, on the operations alone |
| ReceiveWait.TimeoutMissesMessage | core/src/client_connection.cc:62-65 | a timed-out call leaves a message that would have served it if and only if, added to the supply at its last look (which did not suffice), what was written since less what others took since suffices |
| ReceiveWait.OverdueSince | core/src/client_connection.cc:27-65 | such a call had been signalled, by the writer of a message for its own id, and slept on |
| ReceiveWait.TimeoutCanMissMessage | core/src/client_connection.cc:62-65 | a run in which that happens, and the message is there for the next call |
| WorkQueues.EveryRun | core/src/WorkQueue.cc:12-78 | every reachable state: destroyed means empty, parked without a signal means nothing to do, completions answer the calls in order and respond to exactly the accepted ones, written and queued are the accepted calls |
| WorkQueues.AnsweredExactlyOnce | core/src/WorkQueue.cc:38-70 | over every run each call, accepted or refused, has been answered exactly once |
| WorkQueues.AcceptedUntilDestroyed | core/src/WorkQueue.cc:46-70 | over every run exactly the calls made before destruction are accepted and get a response, and the later ones an exception; receives are heard in order |
| WorkQueues.BurstGetsIn | core/src/WorkQueue.cc:46-70 | while the worker waits, any number of new calls get in one after the other, and a live queue takes them all in order |
| WorkQueues.QueueShutsDown | core/src/WorkQueue.cc:38-43 | destroying the queue makes a waiting worker end with nothing left to answer |
| WorkQueues.AsyncRefinesSync | core/src/WorkQueue.cc:12-78 | receivers see a run of the server that writes at once; across ids and for each id, writes then queue are the accepted messages in order, a prefix after destruction |
| WorkQueues.WorkerEmptiesQueue | core/src/WorkQueue.cc:15-36 | from every reachable live state the worker, signalled if there is work, writes everything accepted |
| WorkQueues.StepAlert | core/src/WorkQueue.cc:56-61 | signalling only when the list was empty, and before inserting, loses no wake-up |
| WorkQueues.WorkQueue.Enqueue | core/src/WorkQueue.cc:46-70 | takes the `Add` step of the monitor and notifies exactly on the edge from empty |
| WorkQueues.WorkQueue.Destroy | core/src/WorkQueue.cc:72-78 | takes the `Destroy` step of the monitor |
| WorkQueues.WorkQueue.Turn | core/src/WorkQueue.cc:12-44 | writes every queued entry in order, answers nobody a second time, and parks, or ends if destroyed |
| WorkQueues.WorkQueue.Refuse | core/src/WorkQueue.cc:41-43 | one exception for each outstanding entry |
| Servants.SyncServant.constructor | core/src/net_io.cc:43-50 | an empty mailbox for each client and for no other node |
| Servants.SyncServant.Invoke | core/src/IoChannelI.cc:33-66 | a known sender's message goes to its own mailbox only; an unknown one's is dropped and reported done; an unknown operation is an error |
| Servants.SyncServant.TryRecv | core/src/net_io.cc:95-104 | receives from a client's mailbox only, and is an error that touches nothing for any other node |
| Servants.AsyncServant.SendAsync | core/src/IoChannelI.cc:13-21 | a known sender's call takes the `Add` step of its queue; an unknown one's is never answered |
| Topology.ViewsAreDual | core/src/config.cc:564-615 | one node has another as server exactly when that one has it as client, in policy and full-mesh mode |
| Topology.DialledNodeHasClient | core/src/net_io.cc:39-54 | a node that another dials has a client, so it starts its server |
| Topology.GetNodeInfos | core/src/config.cc:564-593 | node by node: who is a server, who is a client, and each error exactly when it is due |
| Topology.AnswerIsViews | core/src/config.cc:564-593 | an answer is the client and server sets that every law about links is about |
| Topology.GetAllNodeInfos | core/src/config.cc:617-709 | without a policy both sets are the other task nodes |
| Topology.GetServers | core/src/config.cc:573-577 | the servers a policy entry names are found if all are known nodes, and one unknown node is an error |
| Topology.AddTaskNodes | core/src/config.cc:323-348 | listed nodes become task nodes, and one unknown node is an error |
| Handshake.EveryRun | core/src/net_io.cc:36-93 | every reachable state, with synchronous or asynchronous servers: phases in order, a sent flag is queued, unread or read, no flag precedes its sender's readiness |
| Handshake.FlagsAreConserved | core/src/net_io.cc:62-84 | over every run and between any two nodes, the flags queued, unread and read are the one sent and one for each attempt that failed late |
| Handshake.FlagsPassTheQueue | core/src/IoChannelI.cc:13-21 | with asynchronous servers, the flags unread and read are those the worker wrote; otherwise none is ever queued |
| Handshake.StrayFlags | core/src/net_io.cc:62-84 | when start-up is done, the flags left over between two nodes number exactly the attempts that failed late there |
| Handshake.LateFailureStrays | core/src/net_io.cc:67-71 | any send of a flag may fail late once, and then leaves the receiver one flag more |
| Handshake.InitIsBarrier | core/src/net_io.cc:62-84 | when `init` returns, all servers run and all clients have passed their first two phases |
| Handshake.NeverDeadlocks | core/src/net_io.cc:36-93 | every reachable unfinished state has a step that decreases the measure |
| Handshake.RunsAreBounded | core/src/net_io.cc:36-93 | over every run, steps taken and work left are at most the first work and twice the repeated sends, so that only endless repeats could keep start-up going |
| Handshake.StartupCompletes | core/src/net_io.cc:36-93 | if every node that dials itself gets an answer, every run that cannot go on has completed on all nodes; if not, no run completes |
| Handshake.NoSelfLoopsSuffice | core/src/config.cc:701-708 | no policy, or one without self-loops, meets that condition |
| PolicyText.GetPolicy | core/src/io_channel_impl.cc:42-66 | the nested loops print the object of every task node's servers, or fail with the error of the first node that has no links |
| PolicyText.LeqByFirstDifference | core/src/io_channel_impl.cc:45-60 | the order of the ids is that of the first differing character, a prefix coming first |
| PolicyText.ListingAscends | core/src/io_channel_impl.cc:45-60 | ids are visited in that order, each once |
| PolicyText.PrintServers | core/src/io_channel_impl.cc:55-60 | the array of quoted ids in set order with commas between |
| PolicyParser.TextRoundTrip | core/src/io_channel_impl.cc:45-65 | parsing the printed text gives back the entries |
| PolicyParser.TextIsInjective | core/src/io_channel_impl.cc:45-65 | different policies print differently |
| PolicyParser.ParsePolicy | core/src/config.cc:415-443 | the loops build the policy map: its keys are the member names, and the first member of a name counts |
| PolicyParser.RereadPolicy | core/src/config.cc:415-443 | the printed text read back is the map from task nodes to the servers they dial |
| PolicyParser.PrintedPolicyIsFaithful | core/src/io_channel_impl.cc:42-66 | every task node gets the same answer under the printed policy if and only if the configuration is self-contained |
| PolicyParser.PrintingIsIdempotent | core/src/io_channel_impl.cc:42-66 | the printed policy always prints as itself, and printing it is not an error if and only if every task node dials someone or is dialled by a task node |
| Retry.RetryLoop | core/src/sync_client.cc:26-52 | at most ceil(timeout / pause) + 1 attempts; stops on the first success, or on the first failure at or after the timeout |
| Retry.LoopIsDetermined | core/src/sync_client.cc:26-52 | what the loop meets with fixes its outcome and its number of attempts |
| Retry.ClockIsTotal | core/src/sync_client.cc:15-52 | the elapsed time is the sum of all calls so far, and of a pause and its oversleeping after each but the last |
| Retry.BoundIsReached | core/src/base_client.cc:131-162 | when calls fail at once and sleeps are exact, the loop gives up after exactly that many attempts |
| Retry.NoPauseNoBound | core/src/base_client.cc:131-162 | with a pause of zero there is no bound |
| Delivery.EndToEnd | core/src/sync_client.cc:26-54 | over every run, on every link between distinct nodes, across ids and for every id: what entered the receiver is the sent sequence in order, a success at least once; after destruction a prefix |
| Delivery.StopIsFinal | core/src/WorkQueue.cc:63-78 | once the work queue of a link is destroyed, no later send over it succeeds or is dispatched, in any run |
| Delivery.ReceivesAreHeard | core/src/net_io.cc:95-104 | over every run what was done to a mailbox stays done, in order, and the receives among it are those made |
| Delivery.QueueDrains | core/src/WorkQueue.cc:15-36 | from every reachable state the worker can write all there is, and then everything sent is in the mailbox |
| Delivery.LinksAreComputed | core/src/config.cc:564-593 | the links and the registered senders are what the nodes are told by their own configuration |
| Delivery.ExactlyOnce | core/src/sync_client.cc:26-54 | at every point before destruction it is exactly the successful sends if and only if no attempt, of a finished send or of the one in progress, failed after its dispatch |
| Delivery.EndToEndBytes | core/src/client_connection.cc:8-69 | bytes received, held and queued are the concatenation of what was sent, for either build |
| Delivery.DeliveryHoldsExactly | core/src/IoChannelI.cc:33-50 | the law holds on a link if and only if it is not a self-link over a running synchronous server |
| Delivery.SelfSendIsSwallowed | core/src/IoChannelI.cc:44-49 | on such a link a successful send leaves nothing behind |
| Delivery.WorkQueueIsServer | core/src/WorkQueue.cc:12-78 | each step of the work queue is an action the link can take, with the same effect on the receiving end; a call is added by an attempt over an answerable link |
| Delivery.AnswerIsAnswerable | core/src/WorkQueue.cc:46-70 | the work queue responds to a call exactly when its link is answerable, and otherwise raises an exception |
| Delivery.AsyncSystemRefinesSync | core/src/IoChannelI.cc:13-30 | for every run with asynchronous servers there is a run of the same nodes with synchronous servers that does the same to every mailbox, and whose sends, all successful at once, followed by the queued messages are what the asynchronous run sent over each link, in order across ids; a prefix after destruction |
| Delivery.RetriesAreSends | core/src/sync_client.cc:26-54 | over every run whose sender follows the retry loop, with anything happening in between: the sends of the link are the calls, with the loop's outcome and its late attempts, and none is dispatched more than ceil(timeout / pause) + 1 times |
| Delivery.ArrivalsAreBounded | core/src/sync_client.cc:26-54 | so at most that many copies for each send on an id ever enter the receiving end |
| Delivery.LoopsCanRun | core/src/sync_client.cc:26-54 | whatever the loops meet with, such a run exists |

## Left out

- `ViaNetIO::init` is modelled on values as the protocol of `Handshake` (its first loop is `SyncServant.constructor`); the ping variant used when `CONNECT_SYNC` is off is only the retry loop.
- Connections.QueuedConnection.TryRecv: does not model a destination smaller than the message, for which the code has no check; that it fits is a precondition, as in `Connections.QueuedConnection.Recv` and `Servants.SyncServant.TryRecv`.
- CycleBuffers.CycleBuffer.Read: does not model blocking on its own condition variable; having enough bytes is its precondition.
- CycleBuffers.CycleBuffer.Peek: does not model blocking either, for the same reason; nothing in the repository calls it.
- CycleBuffers.CycleBuffer.ReadFrame: a corrupt frame, for which the code throws or reads out of bounds, is one result that changes nothing.
- WorkQueues.AnsweredExactlyOnce: does not cover calls from unregistered nodes, which reach no queue and are never answered.
- Signals that cut a sleep short, and a clock that runs backwards.
- Ice, Glacier2 and IceGrid, certificates, generated code, Python bindings: foreign configuration without logic of the channel.
- JSON loading other than the policy object, a policy given as a string, `GetNode`, `GetNodeType` and the node-list caches of the channel object: they would only add easy members.
- `is_full_`, `is_empty_`, `can_remove` and the `timeout` arguments of send and receive: never consulted.
