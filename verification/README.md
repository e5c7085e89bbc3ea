# Machnet in Dafny

Machnet is a user-space network stack that applications reach through shared memory. This
project models its protocol and concurrency core and proves what the rest relies on:

- **TCP** (`TcpFraming`, `TcpFlowModel`, `TcpFlowClass`, `TcpSafety`, `TcpSystem`, `TcpSteps`,
  `TcpDeliver`, `TcpRuns`, `TcpTimer`, `TcpProgress`, `TcpWitness`). `Flow` is an endpoint as a
  value with one function per operation; the class `TcpFlow` performs the same operations in place, loops
  included. A system is two endpoints; every segment ever sent stays in a log, and a delivery
  may pick any logged segment of the peer at any time, so loss, duplication, delay and
  reordering need no events of their own. Histories count in unbounded positions, while every
  decision is taken on 32-bit numbers. The one assumption is that a segment that arrives is not
  stale: what it carries, and what it acknowledges if it does, lies at most 2^31 behind the
  receiver's own position. `TcpProgress` says what is sent and answered, not only that it is
  sound, and `TcpWitness` shows for any initial sequence numbers runs that connect, deliver and
  close. Exhaustion of the packet pool is a `budget` of each call.
- **Rings** (`Jring`, `JringCall`, `JringCopy`, `JringPool`, `Jring2`, `Jring2Call`). `jring`
  runs any number of threads, interleaved at every load, compare-and-swap, element copy and
  store, in multi- and single-thread mode, bulk and burst; the one assumption is that the head
  does not move by a positive multiple of 2^32 tickets between a thread's load of it and its
  compare-and-swap, and `Jring.SwapNeedsAwake` says that it is needed. `JringPool` is about a
  ring that keeps the free buffers of a pool.
  `jring2` runs one writer and one reader, interleaved at every shared access, with element
  copies that are not atomic.
- **Buffers and messages** (`BufferPool`, `PoolThreads`, `MsgPath`, `PoolPath`). The pool with
  its two caches, call by call and with both sides interleaved at every ring operation; the path
  of a message from the application's segments through a chain of buffers and back, with
  buffers that come from the pool.
- **UDP flow** (`UdpPacket`, `UdpRx`, `UdpTx`, `UdpTracking`, `UdpRuns`). Reassembly of the
  receiver, window and retransmission of the sender, the linked list of tracked buffers behind
  it, and both ends together with the receiver's own acknowledgements.
- **Ports and layout** (`Ports`, `Layout`). Source-port allocation and the memory layout of a
  channel.
- `Words` holds 32-bit numbers and their comparisons, remainders, and lists of byte strings;
  `Common` what several parts share.

Where comments and code of the repository disagree, the model follows the code. The reassembly
window of the UDP receiver is documented as 256 packets and is 64 (src/include/flow.h:159-161).

Two promised properties do not hold everywhere.

- The UDP receiver takes a packet that is more than 2^32 - 64 behind for a new one. Messages are
  delivered as sent all the same, for any number of packets below 2^32
  (`UdpRx.DeliversInOrder`, `UdpRuns.AckedIsDelivered`); what fails is the order, window and
  count of the reassembly queue. `UdpRx.BreaksIffAncient` says which arrivals break it,
  `UdpRx.TooLong` gives a run from the start that does, and by `UdpRx.QueueKeptIff` every run
  keeps it if and only if at most 2^32 - 64 packets are sent.
- Sending and receiving a message does not always return its buffers: `machnet_sendmsg` keeps
  those of a message that the ring to the stack has no room for. By `PoolPath.SendThenReceive`
  all of them are returned if and only if the ring has room, or the message is refused before,
  for an illegal length or a short pool.

## Model

| member | source | states |
|---|---|---|
| `TcpRuns.DeliveredIsPrefix` | src/include/tcp_flow.h:347-1126 | in every run of two endpoints over a network that drops, duplicates, delays and reorders, the messages passed to either application are a prefix, byte for byte, of those the other side accepted, in well-formed buffer trains |
| `TcpRuns.NothingLost` | src/include/tcp_flow.h:789-1126 | `snd_una_` never passes what the peer has consumed, `snd_buf_` is exactly the accepted stream from `snd_una_` on, and both sides agree on both initial sequence numbers |
| `TcpRuns.AckedIsDelivered` | src/include/tcp_flow.h:1106-1126 | every message that the sender has seen acknowledged to its last byte has been passed to the peer's application |
| `TcpWitness.Delivers` | src/include/tcp_flow.h:196-411 | for every pair of initial sequence numbers some run completes the handshake and delivers any message that fits a segment, so the results on all runs are about such runs |
| `TcpRuns.AnySegmentArrives` | src/include/tcp_flow.h:240-267 | every segment ever sent may arrive at any opened peer at any time, except exactly the stale ones: those that carry, or acknowledge, what lies more than 2^31 back; a reset is never stale |
| `TcpRuns.OneByte` | src/include/tcp_flow.h:633-743 | no sequence number ever carries two different bytes, over first transmissions, rewinds, probes and rolled-back sends |
| `TcpRuns.OneFin` | src/include/tcp_flow.h:220-233 | every FIN ever sent has the same number, one past the last stream byte, and after it no message is accepted |
| `TcpRuns.RunInv` | src/include/tcp_flow.h:240-481 | the invariant of both endpoints holds in every reachable state |
| `TcpRuns.StepKeepsInv` | src/include/tcp_flow.h:240-481 | every event at either endpoint keeps the invariant of both |
| `TcpRuns.DeliverMoved` | src/include/tcp_flow.h:240-337 | a delivered segment, whatever the state it meets, keeps the positions, the stream and the log consistent |
| `TcpRuns.InvDelivers` | src/include/tcp_flow.h:987-1102 | what has been received is a prefix of what the peer has sent, and every train is complete |
| `TcpSafety.AckTest` | src/include/tcp_flow.h:1106-1107 | the two wrapped comparisons accept an acknowledgement exactly when it lies in (`snd_una_`, `snd_nxt_`] |
| `TcpSafety.AckTaken` | src/include/tcp_flow.h:1106-1126 | an accepted acknowledgement drops exactly the acknowledged bytes, also when it covers the FIN, and never one the peer has not consumed |
| `TcpSafety.FinAcked` | src/include/tcp_flow.h:936-951 | our FIN is outstanding exactly while `snd_una_` has not passed it |
| `TcpSafety.PumpGood` | src/include/tcp_flow.h:688-727 | whatever `PumpSend` emits is a slice of the stream at its own position, or the FIN behind the last byte |
| `TcpSafety.DataGood` | src/include/tcp_flow.h:633-660 | a data segment carries the stream bytes of its sequence number |
| `TcpSafety.TakenWhen` | src/include/tcp_flow.h:789-816 | the three wrapped comparisons take payload exactly when it starts at or before `rcv_nxt_` and reaches past it |
| `TcpSafety.PayloadTaken` | src/include/tcp_flow.h:789-816 | what is taken are the next bytes of the peer's stream, and `rcv_nxt_` moves by as much |
| `TcpSteps.OutputMoved` | src/include/tcp_flow.h:347-411 | an accepted message extends the stream by its frame, a refused one changes nothing |
| `TcpSteps.RewindMoved` | src/include/tcp_flow.h:731-735 | a go-back-N rewind sends the same stream again |
| `TcpSteps.ProbeMoved` | src/include/tcp_flow.h:739-743 | a window probe sends the next stream byte |
| `TcpSteps.TickMoved` | src/include/tcp_flow.h:420-481 | a timer tick keeps positions, stream and log consistent |
| `TcpDeliver.DeliverSynSent` | src/include/tcp_flow.h:820-851 | the SYN-ACK and the simultaneous open fix the initial sequence numbers |
| `TcpDeliver.DeliverSynReceived` | src/include/tcp_flow.h:853-871 | the completing acknowledgement, with or without data, establishes the connection |
| `TcpDeliver.DeliverEstablished` | src/include/tcp_flow.h:873-918 | acknowledgement, payload and FIN of one segment are taken consistently |
| `TcpDeliver.DeliverFinWait1` | src/include/tcp_flow.h:920-952 | the same while our FIN is outstanding |
| `TcpDeliver.DeliverFinWait2` | src/include/tcp_flow.h:954-976 | the same after our FIN is acknowledged |
| `TcpDeliver.DeliverPassive` | src/include/tcp_flow.h:277-288 | the SYN of a passive open is answered at position 0 |
| `TcpFraming.DeframeInvertsFrame` | src/include/tcp_flow.h:371-404 | deframing inverts framing under any chunking, exactly for messages of legal length |
| `TcpFraming.DeframePrefix` | src/include/tcp_flow.h:987-1102 | any prefix of the framed stream delivers a prefix of the messages, in complete trains |
| `TcpFraming.DeframeComplete` | src/include/tcp_flow.h:1073-1092 | every message whose frame has arrived completely is delivered |
| `TcpFraming.DeframeAll` | src/include/tcp_flow.h:987-1102 | the whole framed stream, cut anywhere, delivers exactly the messages |
| `TcpFraming.FinishTrain` | src/include/tcp_flow.h:1073-1100 | a delivered train has one SYN head with the length, SG links, one FIN tail without SG, and full buffers before it |
| `TcpFraming.ChunksJoin` | src/include/tcp_flow.h:987-1102 | how the stream is cut into segments does not matter |
| `TcpFlowModel.DecodeEncode` | src/include/tcp_flow.h:240-267 | the payload length comes from the IP header, so link padding never reaches the stream |
| `TcpFlowModel.OptionsRoundTrip` | src/include/tcp_flow.h:574-579 | any option list is read for its last MSS, and the MSS option we send is read back |
| `TcpFlowModel.ParseMss` | src/include/tcp_flow.h:751-776 | the option parser ends within bounds on every byte string and never leaves a zero MSS |
| `TcpTimer.AlwaysArmed` | src/include/tcp_flow.h:718-726 | after any schedule of calls with any packets, an unanswered SYN or SYN-ACK and buffered or in-flight data imply a running timer |
| `TcpTimer.CallKeepsArmed` | src/include/tcp_flow.h:220-481 | every public call keeps the timer armed while anything is buffered or in flight |
| `TcpTimer.GivesUp` | src/include/tcp_flow.h:420-481 | an armed flow that receives nothing is given up by the 44th tick, however sends and the close are mixed in |
| `TcpTimer.TickAges` | src/include/tcp_flow.h:420-481 | every tick shortens the life of an unanswered flow by exactly one |
| `TcpTimer.PumpBounds` | src/include/tcp_flow.h:688-706 | every data segment has 1 to min(1400, peer MSS) bytes and ends within the window and the buffer, and with packets to spare everything the window allows is sent |
| `TcpTimer.TurnBounds` | src/include/tcp_flow.h:699-706 | one turn of the send loop advances by a segment within all three limits |
| `TcpProgress.ExpiryResends` | src/include/tcp_flow.h:449-478 | go-back-N: an expired timer sends again from `snd_una_` on, in a row: at least a first segment with the oldest bytes, with packets to spare everything the window allows, and then the pending FIN |
| `TcpProgress.ExpiryProbes` | src/include/tcp_flow.h:467-478 | with a closed window an expired timer sends exactly the next byte |
| `TcpProgress.ExpiryShakes` | src/include/tcp_flow.h:449-466 | while the handshake is unanswered an expired timer repeats the SYN or SYN-ACK |
| `TcpProgress.TickCounts` | src/include/tcp_flow.h:420-448 | without an expired timer a tick only counts |
| `TcpProgress.TimeWaitEnds` | src/include/tcp_flow.h:424-434 | TIME_WAIT counts down, sends nothing, and then closes |
| `TcpProgress.GivingUpTells` | src/include/tcp_flow.h:440-448 | a flow that is given up is closed and the application told |
| `TcpProgress.PumpSends` | src/include/tcp_flow.h:688-727 | exactly what `PumpSend` emits: the next bytes without a gap, as many as window, buffer and packets allow, the first segment as long as possible, and the FIN when it is due, all data is out and a packet is left |
| `TcpProgress.CloseSends` | src/include/tcp_flow.h:220-228 | a close sends the FIN behind the buffered data as soon as window and packets allow |
| `TcpProgress.CloseResets` | src/include/tcp_flow.h:228-233 | a close in any other state resets the connection |
| `TcpProgress.AcceptsIff` | src/include/tcp_flow.h:347-370 | which messages are taken, without 32-bit arithmetic |
| `TcpProgress.OutputFrees` | src/include/tcp_flow.h:347-411 | the buffers of every message are freed, taken or not, and a message that is not taken changes nothing else |
| `TcpProgress.OutputSends` | src/include/tcp_flow.h:371-411 | a message that is taken is sent at once as far as window and packets allow |
| `TcpProgress.DataAnswered` | src/include/tcp_flow.h:873-976 | every segment with data, in order or not, is answered by an acknowledgement of all that has been received |
| `TcpProgress.FinTaken` | src/include/tcp_flow.h:894-918 | the FIN is taken, acknowledged and answered by CLOSE_WAIT exactly when all data before it has been; one that was taken before is acknowledged again |
| `TcpProgress.LastFinTaken` | src/include/tcp_flow.h:932-976 | after our own close the peer's FIN is acknowledged and starts TIME_WAIT |
| `TcpProgress.AckMoves` | src/include/tcp_flow.h:1106-1126 | in every state with data or a FIN in flight an acknowledgement moves `snd_una_` exactly if it lies in what is in flight |
| `TcpProgress.InputFills` | src/include/tcp_flow.h:240-337 | whatever arrives, with packets to spare the flow then has sent all that the window allows |
| `TcpProgress.WindowTaken` | src/include/tcp_flow.h:880-888 | in ESTABLISHED every acknowledgement sets the send window |
| `TcpProgress.Opens` | src/include/tcp_flow.h:196-216 | an active open sends the SYN and starts the timer, a passive one waits |
| `TcpProgress.LateSynAnswered` | src/include/tcp_flow.h:873-879 | a SYN that reaches an established flow is only acknowledged |
| `TcpProgress.SynAnswered` | src/include/tcp_flow.h:277-288 | a SYN is answered with a SYN-ACK and its MSS learned |
| `TcpProgress.CrossingSynAnswered` | src/include/tcp_flow.h:838-851 | so is a SYN that crosses ours |
| `TcpProgress.SynAckAnswered` | src/include/tcp_flow.h:820-837 | a SYN-ACK of our SYN establishes the flow with the peer's window and MSS, tells the application and is acknowledged; any other changes nothing |
| `TcpProgress.AckEstablishes` | src/include/tcp_flow.h:853-871 | the acknowledgement of our SYN-ACK, and no other, establishes the flow with the peer's window, and new data on it is acknowledged |
| `TcpProgress.Resets` | src/include/tcp_flow.h:269-337 | a reset closes the flow and is not answered; anything else that reaches a closed flow is answered with a reset |
| `TcpProgress.AckRevives` | src/include/tcp_flow.h:1106-1126 | an acknowledgement of new data gives a waiting flow its whole life back and stops the timer when nothing is left |
| `TcpWitness.Closes` | src/include/tcp_flow.h:196-481 | for every pair of initial sequence numbers some run opens the connection and closes it in both directions |
| `TcpFlowClass.TcpFlow.InputPacket` | src/include/tcp_flow.h:240-337 | the object after a packet is the specified endpoint after it |
| `TcpFlowClass.TcpFlow.OutputMessage` | src/include/tcp_flow.h:347-411 | copies, rolls back or drops the chain as specified, and frees it in each case |
| `TcpFlowClass.TcpFlow.CopyChain` | src/include/tcp_flow.h:383-396 | appends the first `msg_len` bytes of the chain, or all of them if there are fewer |
| `TcpFlowClass.TcpFlow.AppendFrame` | src/include/tcp_flow.h:371-404 | appends the whole frame, or leaves the buffer as it was when the chain is too short |
| `TcpFlowClass.TcpFlow.ShutDown` | src/include/tcp_flow.h:220-233 | queues the FIN behind the data, or resets |
| `TcpFlowClass.TcpFlow.PeriodicCheck` | src/include/tcp_flow.h:420-481 | one tick, with the verdict to keep or remove the flow |
| `TcpFlowClass.TcpFlow.InitiateHandshake` | src/include/tcp_flow.h:196-202 | the active open |
| `TcpFlowClass.TcpFlow.StartPassiveOpen` | src/include/tcp_flow.h:213-216 | the passive open |
| `TcpFlowClass.TcpFlow.PumpData` | src/include/tcp_flow.h:698-706 | the data loop ends and equals its recursive specification |
| `TcpFlowClass.TcpFlow.ParseTcpOptions` | src/include/tcp_flow.h:751-776 | the option loop equals its specification |
| `TcpFlowClass.ConsumePayload` | src/include/tcp_flow.h:987-1102 | the three nested loops equal the byte-by-byte deframer |
| `TcpFlowClass.FillTrain` | src/include/tcp_flow.h:1018-1068 | the copy loop fills and links buffers as byte-by-byte filling does |
| `TcpFlowClass.TakePrefix` | src/include/tcp_flow.h:990-1011 | the length prefix, split anywhere, is read or rejected |
| `Words.SerialOrder` | src/include/tcp_flow.h:1155-1166 | the wrapped comparisons agree with the true ones within half the number circle |
| `Words.Be32RoundTrip` | src/include/tcp_flow.h:376-378 | the length prefix is read back |
| `Jring.RingSafe` | src/ext/jring_elem_private.h:280-518 | in every interleaving of any number of producers and consumers: the order and distance of heads and tails, exactly one owner for every reserved ticket, and the dequeued elements are the first enqueued ones, in order |
| `Jring.StepInv` | src/ext/jring_elem_private.h:280-518 | every load, compare-and-swap, element copy and store keeps the ring invariant |
| `Jring.StepRefines` | src/ext/jring_elem_private.h:456-518 | every step refines a FIFO queue of capacity size - 1 with atomic bulk operations |
| `Jring.DequeueReturns` | src/ext/jring_elem_private.h:500-518 | what a dequeue returns is what left the queue when it moved the head |
| `Jring.HistoryFixed` | src/ext/jring_elem_private.h:456-518 | an element keeps its ticket and nothing dequeued is taken back |
| `Jring.LoadTailExact` | src/ext/jring_elem_private.h:325-413 | a call is granted exactly n, or what there is for a burst, or nothing for a bulk that does not fit; with nothing it returns |
| `JringCall.CallAlone` | src/ext/jring_elem_private.h:280-518 | a call that no other thread interferes with enqueues or dequeues exactly that many elements and returns |
| `JringCall.GrantKept` | src/ext/jring_elem_private.h:351-518 | with any interference a grant is kept until the swap is lost or the call returns, and a dequeue returns as many elements as it was granted |
| `Jring.ZeroOnlyIfShort` | src/ext/jring_elem_private.h:325-349 | an operation returns 0 only if fewer than n slots or entries were available when it read the opposite tail |
| `Jring.EntriesExact` | src/ext/jring_elem_private.h:343-413 | the 32-bit subtraction never exceeds the true distance, and equals it if and only if that is below 2^32 |
| `Jring.HeadIsCurrent` | src/ext/jring_elem_private.h:351-359 | the compare-and-swap of 32-bit values succeeds only on the current head |
| `Jring.SwapNeedsAwake` | src/ext/jring_elem_private.h:351-359 | a compare-and-swap that succeeds keeps the ring in order if and only if the head has not moved by a positive multiple of 2^32 since it was read |
| `Jring.OurTurn` | src/ext/jring_elem_private.h:280-291 | the tail is stored only when all earlier reservations are published |
| `Jring.CopyInv` | src/ext/jring_elem_private.h:468-511 | an element copy overwrites no unread slot |
| `Jring.SomeoneMoves` | src/ext/jring_elem_private.h:280-291 | the reservation that a tail waits for can always move on |
| `Jring.FailsOnlyInDequeue` | src/ext/jring_elem_private.h:325-349 | an enqueue that leaves room for what is queued returns 0 only while a dequeue is between its head move and its tail update |
| `JringPool.ReturnNeverRefused` | src/ext/machnet_common.h:536-564 | in every run in which callers return only buffers that they have, of a pool that fits the ring, a return is granted all its buffers: with correct use it always succeeds |
| `JringPool.StepOnce` | src/ext/jring_elem_private.h:280-518 | every memory access keeps every buffer from being in the ring twice, on its way back twice, or both |
| `JringPool.DequeueHandsOut` | src/ext/jring_elem_private.h:500-518 | what a dequeue returns is in the hands of its caller from the tail update on, and was not before |
| `JringPool.StaysHandedOut` | src/ext/jring_elem_private.h:280-518 | it stays there until it is returned |
| `Jring.CountExact` | src/ext/jring.h:457-463 | the count is the number of published entries not yet given back |
| `JringCopy.EnqueueElems` | src/ext/jring_elem_private.h:35-125 | the unrolled and the wrapping copies into the ring equal the simple one |
| `JringCopy.DequeueElems` | src/ext/jring_elem_private.h:154-244 | the unrolled and the wrapping copies out of the ring equal the simple one |
| `JringCopy.Unrolled8` | src/ext/jring_elem_private.h:41-67 | the 8-way loop with its fallthrough tail |
| `JringCopy.Unrolled4` | src/ext/jring_elem_private.h:82-96 | the 4-way loop with its fallthrough tail |
| `JringCopy.Unrolled2` | src/ext/jring_elem_private.h:111-117 | the 2-way loop with its tail |
| `JringCopy.EnqueueScaled` | src/ext/jring_elem_private.h:131-152 | elements of any size, copied as 32-bit words, land as whole elements |
| `JringCopy.DequeueScaled` | src/ext/jring_elem_private.h:250-271 | elements of any size are read back as whole elements |
| `JringCopy.StoredAt` | src/ext/jring_elem_private.h:75-102 | element k goes to slot (head + k) mod size |
| `JringCopy.StoredElsewhere` | src/ext/jring_elem_private.h:75-102 | no other slot changes |
| `JringCopy.SlotOfWord` | src/ext/jring_elem_private.h:78-79 | taking the slot from the 32-bit image of the head gives the same slot |
| `JringCopy.FetchedAt` | src/ext/jring_elem_private.h:194-221 | element k comes from slot (head + k) mod size |
| `JringCopy.StoreFetch` | src/ext/jring_elem_private.h:35-271 | a dequeue-copy after an enqueue-copy at the same head is the identity |
| `JringCopy.StoredWords` | src/ext/jring_elem_private.h:142-150 | scaling index and count to words copies the same elements |
| `Jring2.RingSafe` | src/ext/jring2.h:87-267 | in every interleaving of writer and reader: elements come out whole, in order, each once; at most mask are queued; the cached free count never exceeds the true one; the slot about to be written is not flagged |
| `Jring2.StepRefines` | src/ext/jring2.h:183-267 | every step refines a FIFO queue |
| `Jring2.StepInv` | src/ext/jring2.h:87-267 | every memory access of either thread keeps the invariant |
| `Jring2.RefusedIffFull` | src/ext/jring2.h:214-228 | an enqueue is refused exactly when fewer than n slots were free as it loaded `read_idx` |
| `Jring2Call.EnqueueDecides` | src/ext/jring2.h:183-228 | a call uses the cached count or loads `read_idx`, and is refused if and only if fewer slots than objects are free then |
| `Jring2Call.EnqueueCompletes` | src/ext/jring2.h:214-237 | an enqueue that is not refused appends all its objects in order and ends, however the reader's steps are mixed in |
| `Jring2Call.DequeueCompletes` | src/ext/jring2.h:240-267 | a burst takes the first min(n, queued) elements, whole and in order, and ends |
| `Jring2.StopsIffEmpty` | src/ext/jring2.h:240-267 | a dequeue stops early exactly when nothing is queued |
| `Jring2.CountConservative` | src/ext/jring2.h:165-171 | the count is at least the number of queued elements |
| `Jring2.FreeExact` | src/ext/jring2.h:189-192 | the circular arithmetic yields the true number of free slots |
| `BufferPool.Pool.constructor` | src/ext/machnet_private.h:260-272 | at first every buffer is in the free ring |
| `BufferPool.Pool.Partition` | src/ext/machnet.c:148-240 | every buffer is in exactly one place |
| `BufferPool.Pool.RoomFor` | src/ext/machnet_common.h:548-564 | whoever holds buffers finds room for them in the free ring |
| `BufferPool.Pool.BulkTake` | src/ext/machnet_common.h:513-534 | n buffers or none |
| `BufferPool.Pool.BulkPut` | src/ext/machnet_common.h:548-564 | all buffers or none |
| `BufferPool.Pool.AppAlloc` | src/ext/machnet.c:148-190 | exactly when the application allocates, what it gets, and that a failure changes nothing |
| `BufferPool.Pool.AppRelease` | src/ext/machnet.c:212-240 | a release succeeds without reaching abort(), and the cache stays within 64 |
| `BufferPool.Pool.SpillApp` | src/ext/machnet.c:217-235 | a full cache gives half of its buffers to the ring at the first attempt |
| `BufferPool.Pool.StackAlloc` | src/include/channel.h:260-270 | exactly when the stack allocates, and what it gets |
| `BufferPool.Pool.StackFree` | src/include/channel.h:278-298 | a release succeeds |
| `BufferPool.Pool.StackBulkFree` | src/include/channel.h:327-364 | a bulk release succeeds, so the CHECK on it holds |
| `BufferPool.Pool.StackBulkAlloc` | src/include/channel.h:308-319 | n buffers straight from the ring, or none |
| `BufferPool.Pool.StackDrain` | src/include/channel.h:366-372 | the whole cache goes to the caller |
| `PoolThreads.OnePlace` | src/ext/machnet.c:148-240 | application and stack interleaved at every ring operation, even over a hypothetical ring that refuses for no reason: every buffer is at every moment in exactly one place |
| `PoolThreads.ReleasesSucceed` | src/include/channel.h:278-364 | in every interleaving over a ring that refuses only when full, as the real one does: no release is refused, abort() is not reached and no buffer is lost |
| `PoolThreads.AllocationEnds` | src/ext/machnet.c:148-190 | an allocation ends, with all its buffers if and only if the cache has enough or the ring can refill it |
| `PoolThreads.ReleaseEnds` | src/ext/machnet.c:212-240 | a release by the application ends with every buffer in the cache or the ring |
| `PoolThreads.StackReleaseEnds` | src/include/channel.h:278-364 | a release by the stack ends after at most one ring operation |
| `PoolThreads.CachesUsed` | src/include/channel.h:341-364 | a full cache spills half, and a release by the stack fills its cache first |
| `PoolThreads.StackTakesIff` | src/include/channel.h:260-319 | exactly when the stack gets a buffer, or a batch |
| `PoolThreads.StepConserves` | src/ext/machnet.c:148-240 | every step of either thread moves buffers between ring, cache, hand and owner without making or dropping one |
| `PoolPath.SendThenReceive` | src/ext/machnet.c:536-773 | sending and receiving leaves the pool with exactly the buffers handed out before if and only if the ring has room, or the length is illegal or the pool short so that the message is refused |
| `PoolPath.Send` | src/ext/machnet.c:536-627 | refused exactly for an illegal length or a short pool, and then nothing changes; a sent or dropped message holds buffers of its own, and no buffer held before is written |
| `PoolPath.Receive` | src/ext/machnet.c:659-773 | every buffer of the message returns to the pool, whether it fitted or not |
| `MsgPath.SendAndReceive` | src/ext/machnet.c:536-773 | a message sent in any segments is received into any segments exactly if they have room, byte for byte, and every buffer is released exactly once either way |
| `MsgPath.Channel.SendMsg` | src/ext/machnet.c:536-627 | refused, sent, dropped by a full ring or aborted exactly when; a sent message is a well-formed chain with exactly its bytes, and no other buffer changes |
| `MsgPath.Channel.Gather` | src/ext/machnet.c:559-597 | the gather loops put all bytes into the fewest buffers, or run out of them |
| `MsgPath.Channel.CopyPiece` | src/ext/machnet.c:569-596 | one copy, with the next buffer linked when the current one is full |
| `MsgPath.Finishes` | src/ext/machnet.c:602-618 | the marks on first and last buffer complete the chain |
| `MsgPath.NeededExact` | src/ext/machnet.c:551-552 | the number of buffers allocated is the number used |
| `MsgPath.Channel.RecvMsg` | src/ext/machnet.c:659-773 | returns 1 exactly if the segments have room, with equal bytes and the sender; every buffer is released once, in batches of at most 16 |
| `MsgPath.Channel.CopyOut` | src/ext/machnet.c:692-744 | one copy into a segment makes progress and keeps the place |
| `MsgPath.Channel.ReleaseRest` | src/ext/machnet.c:757-770 | the failure path releases the rest of the chain |
| `UdpRuns.AckedIsDelivered` | src/include/flow.h:186-923 | sender and receiver with its own acknowledgements, over any network: what is delivered is a prefix of what was sent, the sender holds every packet the receiver has not taken, and a message whose packets are all acknowledged and freed has been delivered |
| `UdpRuns.DeliversSent` | src/include/flow.h:186-835 | in every run of a sender, whatever acknowledgements it sees, any packets it has ever put on the wire, arriving in any order, any number of times or never, deliver a prefix of the messages sent, in order and each once |
| `UdpRuns.AckReaches` | src/include/flow.h:903-915 | an acknowledgement taken for new data, however old, acknowledges exactly up to its own number |
| `UdpRuns.StepKeeps` | src/include/flow.h:525-604 | every event at either end keeps sender and receiver in step |
| `UdpRuns.Works` | src/include/flow.h:535-566 | some run sends, delivers, acknowledges and frees any one-packet message |
| `UdpRx.DeliversInOrder` | src/include/flow.h:186-282 | for any arrivals, lost, repeated and reordered, of fewer than 2^32 packets: the delivered trains are exactly the messages completed below `rcv_nxt`, a prefix of those sent |
| `UdpRx.ConsumeKeeps` | src/include/flow.h:186-247 | one arrival in any state of the queue keeps this, and the expected packet is never refused |
| `UdpRx.WindowTest` | src/include/flow.h:194-204 | which packets are rejected; an old one exactly while it is at most 2^32 - 64 behind |
| `UdpRx.Reassembles` | src/include/flow.h:194-282 | from any state, once the next n <= 64 packets have all arrived, in whatever order and among whatever others, all of them have been taken |
| `UdpRx.OutOfOrderQueued` | src/include/flow.h:206-246 | a packet ahead of `rcv_nxt` and inside the window is queued beside what is there, and nothing is delivered |
| `UdpRx.ArrivalKept` | src/include/flow.h:186-247 | no arrival drops a packet that was queued or taken |
| `UdpRx.BreaksIffAncient` | src/include/flow.h:194-247 | an arrival breaks the queue (strictly increasing, inside the window, `sack_bitmap_count` its length) if and only if it is older than that |
| `UdpRx.AncientTaken` | src/include/flow.h:194-247 | such a packet goes to the front of the queue a second time |
| `UdpRx.TooLong` | src/include/flow.h:194-247 | with more than 2^32 - 64 packets, all in order and then the first again breaks the queue |
| `UdpRx.QueueKeptIff` | src/include/flow.h:186-282 | every run from the start keeps the queue if and only if at most 2^32 - 64 packets are sent |
| `UdpRx.AssembleAll` | src/include/flow.h:250-277 | the packets of a list of messages assemble to that list |
| `UdpRx.RxTracking.Consume` | src/include/flow.h:186-247 | the object after an arrival is as specified; -1 exactly if a buffer was needed and there was none, and then nothing has changed |
| `UdpRx.RxTracking.PushInOrder` | src/include/flow.h:250-282 | the delivery loop equals its specification |
| `UdpTx.SenderSafe` | src/include/flow.h:766-835 | in every run: numbers in flight are the sent buffers, tracked buffer k is the packet of `snd_una + k`, at most cwnd plus the largest reported out-of-order count are in flight, and an armed timer finds a buffer |
| `UdpTx.OnePacket` | src/include/flow.h:766-793 | no sequence number carries two different packets, so a retransmission resends the original |
| `UdpTx.AckFreesSent` | src/include/flow.h:906-913 | an acknowledgement of new data frees sent buffers only |
| `UdpTx.AckCases` | src/include/flow.h:837-907 | which acknowledgements are old, duplicate, beyond and new |
| `UdpTx.AnyAck` | src/include/flow.h:837-923 | every acknowledgement that finds its buffer is handled in every reachable state |
| `UdpTx.ExpiryResends` | src/include/flow.h:579-604 | in every run an expired timer resends exactly the oldest unacknowledged packet, under its number |
| `UdpTx.TickCounts` | src/include/flow.h:579-604 | until then a tick only counts |
| `UdpTx.ThirdDuplicateResends` | src/include/flow.h:841-851 | in every run the third duplicate acknowledgement resends the oldest unacknowledged packet first |
| `UdpTx.HoleResent` | src/include/flow.h:852-898 | a further duplicate resends exactly the packet of the hole it reports |
| `UdpTx.AckCounts` | src/include/flow.h:837-922 | duplicates are counted, and an acknowledgement of new data resets both counts |
| `UdpTx.AllOrNothing` | src/include/flow.h:799-835 | the window never exceeds a batch of 32, so `TransmitPackets` sends all that window and queue allow or, when the allocation fails, nothing; and it starts the timer with the first packet |
| `UdpTx.AlwaysArmed` | src/include/flow.h:799-922 | in every run, however many packets can be allocated, the timer runs while any packet is in flight |
| `UdpTx.EventFills` | src/include/flow.h:557-566 | with packets to spare a message, an acknowledgement of new data and duplicates up to the third are followed by all that the window allows |
| `UdpTx.WindowBound` | src/include/cc.h:47-50 | the wrapped window arithmetic is exactly what cwnd and the out-of-order count leave, and zero outside |
| `UdpTx.TransmitFills` | src/include/flow.h:799-835 | with packets to spare the window is filled or nothing is left unsent |
| `UdpTx.StepKeeps` | src/include/flow.h:557-604 | every call keeps the sender invariant |
| `UdpTx.GivesUp` | src/include/flow.h:579-604 | in every run an armed flow that from then on receives nothing is removed by its tenth tick, however many messages are sent in between |
| `UdpTracking.TxTracking.Append` | src/include/flow.h:75-101 | the message joins the list, and both counters grow by its number of buffers |
| `UdpTracking.TxTracking.GetAndUpdateOldestUnsent` | src/include/flow.h:103-119 | yields the unsent buffers in order |
| `UdpTracking.TxTracking.ReceiveAcks` | src/include/flow.h:50-73 | frees exactly the oldest n buffers, never an unsent one, and keeps list, pointers and counters consistent |
| `UdpTracking.ChainCount` | src/include/flow.h:95-100 | the count computed from the message length is the number of buffers in the chain |
| `UdpTracking.UdpFlow.TransmitPackets` | src/include/flow.h:799-835 | the batch loop sends what the window allows, in order |
| `UdpTracking.UdpFlow.ProcessAck` | src/include/flow.h:837-923 | the object after an acknowledgement is as specified |
| `UdpTracking.UdpFlow.OutputMessage` | src/include/flow.h:557-566 | the object after a message is as specified |
| `UdpTracking.UdpFlow.ResendAt` | src/include/flow.h:865-898 | following k links finds the buffer of `snd_una + k` |
| `UdpTracking.UdpFlow.PeriodicCheck` | src/include/flow.h:579-604 | one tick, with the verdict to keep or remove the flow |
| `Ports.SharedState.constructor` | src/include/machnet_engine.h:46-54 | at first every port of every local address is free |
| `Ports.SharedState.SrcPortAlloc` | src/include/machnet_engine.h:96-157 | the least free port from 1024 on that satisfies the predicate, or none exactly if there is none; slots beyond the bitmap count as free |
| `Ports.FindFreePort` | src/include/machnet_engine.h:108-129 | the least fitting port of one slot |
| `Ports.FindPort` | src/include/machnet_engine.h:131-156 | the search over existing and newly grown slots |
| `Ports.TwiceNeedsRelease` | src/include/machnet_engine.h:96-325 | between two hand-outs of the same port there is a release |
| `Ports.SharedState.SrcPortRelease` | src/include/machnet_engine.h:312-325 | exactly this port becomes free, and the history says so |
| `Ports.SharedState.RegisterListener` | src/include/machnet_engine.h:219-244 | succeeds exactly if the address is local and the port free |
| `Ports.SharedState.UnregisterListener` | src/include/machnet_engine.h:269-279 | releases the port exactly if a listener is registered |
| `Layout.RegionsApart` | src/ext/machnet_private.h:139-280 | the regions are in order, disjoint, and end within the computed size |
| `Layout.RegionsAligned` | src/ext/machnet_private.h:175-244 | rings and index table start on cache lines, the pool on a page |
| `Layout.NoWaste` | src/ext/machnet_private.h:139-280 | no region starts later than its alignment demands and the stride is the least possible, so the size is exact |
| `Layout.BuffersSound` | src/ext/machnet_common.h:353-381 | header, headroom and payload fit the stride, buffers are disjoint, and index and address are inverse |
| `Layout.CalculateSize` | src/ext/machnet_private.h:60-116 | exactly the legal parameters are accepted, and the accumulated size is the end of the layout |
| `Layout.RingSizeSome` | src/ext/jring.h:127-137 | the truncation of the slot count to 32 bits lets no illegal count through |
| `Layout.RingSizeExact` | src/ext/jring.h:127-137 | the ring with its elements fits, in whole cache lines |
| `Layout.RoundUpLeast` | src/ext/machnet_private.h:34 | the stride is the least power of two that will do |

## Left out

- TcpFlowClass.TcpFlow.InitiateHandshake: requires a flow in its constructed state, while the source only checks that it is closed; reopening a used flow is not modelled, because the engine opens a flow once.
- TcpFlowClass.TcpFlow.StartPassiveOpen: requires a flow in its constructed state, for the same reason.
- TcpFlowClass.TcpFlow.OutputMessage: requires that the announced length plus the prefix fits 32 bits; `machnet_sendmsg` bounds lengths by 8 MB.
- TcpFlowClass.ConsumePayload: buffer allocation and the enqueue to the channel succeed; the failure paths drop data.
- TcpRuns.DeliveredIsPrefix: applications send lengths from 1 to 8 MB, as `machnet_sendmsg` does; a length outside that range is rejected by the receiver and desynchronises the stream.
- TcpTimer.AlwaysArmed: says nothing about a FIN that is pending while nothing is buffered or in flight, which pool exhaustion can leave unarmed.
- UdpTracking.UdpFlow.ProcessAck: the hole that fast recovery picks is a parameter and lies among the tracked buffers, and a fast retransmission finds a buffer; the SACK bitmap and its walk are not modelled.
- UdpRx.RxTracking.Consume: the enqueue to the channel succeeds (the source ends the process otherwise), and the SACK bitmap is represented by its count only.
- UdpRx.DeliversInOrder: a flow sends fewer than 2^32 packets; beyond that a number stands for two packets, and an old one may arrive under the number of a new one.
- UdpRuns.DeliversSent: the same bound.
- UdpRuns.AckedIsDelivered: the same bound, and one direction of a flow; the other is independent, since data packets acknowledge nothing.
- UdpTx.AnyAck: a third duplicate acknowledgement finds a tracked buffer, and the hole of fast recovery lies among the tracked buffers; the source relies on it.
- TcpFlowClass.TcpFlow.InputPacket: requires a frame at least as long as the IP total length says; the source does not compare the two.
- UdpTracking.TxTracking.Append: the CHAIN flag that `link` sets is not part of a buffer's content here.
- MsgPath.Channel.SendMsg: segment lengths are below 2^32.
- BufferPool.Pool.AppRelease: one call at a time with atomic ring operations; `PoolThreads.ReleasesSucceed` interleaves the calls, and `JringPool.ReturnNeverRefused` opens up the ring operations.
- TcpWitness.Delivers: one message that fits a segment, sent by the side that opens.
- Ports.SharedState.SrcPortRelease: requires a port that the bitmap covers, as every port handed out is; the source relies on it.
- Ports.SharedState.UnregisterListener: which engine owns a port, and flows that release a listener's port, are outside the shared state.
- JringCopy.EnqueueScaled: rings of 2^32 words or more, whose word count would wrap, are not modelled.
- Jring2.StepRefines: a bulk enqueue has at least one object; the source inserts one element for an empty bulk.
- Layout.CalculateSize: the sizes of the C structures are constants, and powers of two and alignment are computed arithmetically rather than by bit masks.
- Jring.RingSafe: runs in which the head moves by exactly a positive multiple of 2^32 tickets between a thread's load of it and its compare-and-swap are excluded; by `Jring.SwapNeedsAwake` the ring breaks there.
- Jring.StepInv: the same at a compare-and-swap.
- Jring.StepRefines: the same at a compare-and-swap.
- Jring.HistoryFixed: the same runs.
- Jring.ZeroOnlyIfShort: requires a head read less than 2^32 tickets short of the limit; an older one makes the 32-bit subtraction too small (`Jring.EntriesExact`).
- JringPool.ReturnNeverRefused: requires such a head too, for the same reason.
- UdpRx.Reassembles: numbers stay 64 short of 2^32, where no packet can be ancient (`UdpRx.BreaksIffAncient`).
- JringCall.CallAlone: no other thread is between its head move and its tail update on the same side, and none takes a step during the call.
- UdpTx.OnePacket: the CHAIN flag is not part of a packet here; linking the next message behind a sent buffer sets it, so a retransmission may differ from the first transmission in that bit.
- Weak memory: every interleaving is sequentially consistent; the fences are not modelled.
- TCP liveness and the exact close: LAST_ACK closes on any acknowledgement and any FIN in FIN_WAIT_1 or FIN_WAIT_2 enters TIME_WAIT, as in the source, but only safety is proved.
- UDP handshake liveness and sending before the flow is established.
- Checksums, Ethernet, IP and UDP headers, ARP, DPDK rings and packets.
- The engine's control queue, flow tables, RSS, and the creation of channels and shared memory.
- The language bindings, benchmarks and tools.
