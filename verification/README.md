# TAS in Dafny

TAS runs TCP as an operating-system service: a fast path moves packets, a library in each
application shares buffers and descriptor rings with it, a slow path sets connections up. This
project models the parts where those pieces depend on each other and proves that they fit together:

- **Receive and transmit reliability.** 32-bit sequence numbers, circular buffers, one out-of-order
  interval, go-back-N and the dummy byte that stands for FIN are related to unbounded stream offsets
  (`TcpCommon`, `FlowReceive`, `ReceiveReliability`, `ReceiveRuns`, `FlowTransmit`,
  `TransmitReliability`). `FastFlow` is the same flow as an object whose registers and shared buffers
  are updated in place. `RecycledFlow` says which registers left over in a used flow slot do no harm
  (`Leftovers` states the condition, `LeftoverBreaks` and `LeftoverSafe` prove it needed and enough).
- **A whole connection.** Library, fast path, both descriptor queues, application and network as
  interleaved steps (`LibConn`, `LibContext`, `Connection`, `CreditConservation`, `ConnectionRuns`):
  credit is conserved, bumps are never refused, the application reads the remote stream in order, FIN
  and the close events are exact. `Writing` is what the application does with space it is granted.
  `BufferMismatch` is the run that ends in a refused bump when the
  receive buffer is the longer one. `Stranding` adds the queue manager: no sendable byte is forgotten by
  a flow that has its queue to itself, and every other flow can forget one.
- **The queue manager.** A four-level skip list over wrapping timestamps refines a stable priority
  queue; firings are paced; VMs are served round robin with exact byte counts (`Timestamps`,
  `IndexList`, `SkipLevels`, `FlowQueues`, `FlowQman`, `VmQman`). `VmWedge` builds a poll that never ends,
  `StrayQueue` one that leaves work undone.
- **Shared structures.** Descriptor rings as first-in first-out queues (`DescriptorRing`), timers as a
  stable priority queue (`LinkedList`, `TimeoutManager`), epoll lists (`EpollSet`, `EpollWorld`), the
  socket's two-piece view (`SocketView`, `SocketStream`), the RSS table (`RssTable`, `RssBalance`) and
  the packet memory allocator (`PacketBlocks`, `PacketMem`).

Unbounded stream offsets, absolute times and histories are ghost: they say what the stored, wrapping
numbers stand for. Modular positions and timestamps are written as repeated subtraction (`Cell`,
`Stamp`). Random skip-list levels, clocks, NIC answers and memory exhaustion are parameters.

The build modelled has out-of-order reception and future acknowledgements enabled and no GRE tunnels.

Where the code does something other than one might expect, the code is what is modelled:

- `tcp_trim_rxbuf` keeps bytes beyond the window for one family of wrapping packets
  (`TcpCommon.TrimExactIff`, `FlowReceive.FitsIff`); long ones of them are copied past the end of the
  receive buffer (`FlowReceive.StaysInsideIff`). Segments that respect the advertised window are never
  among them.
- `fast_flows_bump` checks the receive bump against the transmit buffer length
  (`FlowState.BumpAcceptedIff`); the connection theorems assume a receive buffer no longer than the
  transmit buffer, and every longer one has a run with a refused bump (`BufferMismatch.RefusedUnlessFits`).
- The length of the out-of-order interval is cut to 16 bits when it is trimmed again; a longer
  interval may be dropped, which costs a retransmission and no byte (`FlowReceive.IntervalTrim`).
- `nicif_connection_add` does not reset the out-of-order interval of the slot's previous flow, so a new
  flow can announce bytes it never received (`RecycledFlow.RecycledIff`, `RecycledFlow.LeftoverExample`).
- `fast_flows_packet` keeps the flow id in 16 bits, so flows 65536 apart set each other's queues
  (`Stranding.StrandsUnlessExclusive`).
- `event_arx_connupdate` makes room for a TXCLOSED event it has already delivered
  (`LibConn.TakenIffFits`, `LibConn.PollForOneStarves`).
- `flextcp_connection_close` forgets the end of the bump list when it takes the only element off; later
  bumps of that context are then never sent, and closing one of its waiting connections aborts
  (`LibContext.Context.Close`, `LibContext.Context.ConnsBump`, `LibContext.LostBumpExample`).
- `vm_qman_poll` remembers a rate-limited VM by the byte count from before it was served; if that VM is
  not linked again, the loop does not end (`VmQman.VmQman.Turn`, `VmQman.VmQman.Spin`,
  `VmWedge.WedgeExample`).
- A flow whose rate is set to or from zero stays in the list it is in, so that one poll can move it to the
  list it has already dealt with (`FlowQman.FlowQman.Poll`, `StrayQueue.StrayExample`).
- The queue manager keeps a VM's total in 32 bits and stops counting at zero (`VmQman.VmQman.PollVm`) and
  compares timestamps that must have been read less than half their range apart
  (`FlowQman.FlowQman.PollSkiplist`, `FlowQman.ClampPastIff`).
- `core_min` starts its search at 255 (`RssBalance.Rss.CoreMin`, `RssBalance.Rss.MinMissed`).
- `packetmem_free` inserts one place too early, so the list is not address-ordered and freed memory can
  stay in pieces (`PacketBlocks.InOrderIff`, `PacketBlocks.StaysInPieces`).
- `tas_epoll_ctl` changes its socket count before it looks at whether the call is refused, and
  `flextcp_epoll_sockclose` does not change it (`EpollWorld.World.Wait`, `EpollWorld.RefusedRemovalExample`).

## Model

| member | source | states |
|---|---|---|
| `TcpCommon.TrimExactIff` | tas/fast/tcp_common.h:122-168 | Trimming drops exactly the packets that miss the receive window and otherwise keeps exactly the bytes in it, if and only if the packet is outside one family of inputs (packet wraps past 2^32, window does not, packet starts after its left edge); all window, sequence number and length values. |
| `TcpCommon.TrimInHole` | tas/fast/tcp_common.h:151-159 | On every input of that family nothing is trimmed although the last packet byte is beyond the window. |
| `TcpCommon.TrimHoleExample` | tas/fast/tcp_common.h:159 | A concrete packet of the family: 200 bytes kept where the window has room for 50. |
| `TcpCommon.TrimByDistance` | tas/fast/tcp_common.h:126-165 | Outside the family the four wrap-around cases are one formula in the signed distance between window and packet. |
| `TcpCommon.TrimOffsets` | tas/fast/tcp_common.h:122-168 | For packet and window given as unbounded stream offsets, trimming their 32-bit images is plain interval intersection. |
| `TcpCommon.InsideWindowNoHole` | tas/fast/tcp_common.h:151-159 | A packet that ends inside the window is never in the failing family. |
| `TcpCommon.ValidRxAckExact` | tas/fast/tcp_common.h:180-203 | An acknowledgement is accepted exactly when it names a position from the oldest unacknowledged byte to the end of the buffered data, and the bump leads exactly there. |
| `TcpCommon.TxAvailExact` | tas/fast/tcp_common.h:215-229 | What may be sent never goes past the peer's window, also one that has shrunk below what is in flight, and is less than all there is only if it uses the window up. |
| `FlowReceive.TrimFits` | tas/fast/fast_flows.c:507-518 | What survives trimming fits the window from where it starts. |
| `FlowReceive.FitsIff` | tas/fast/fast_flows.c:507-518 | The failing family of trimming is exactly the set of segments of which the receiver would keep more than its window has room for. |
| `FlowReceive.TrimPlaces` | tas/fast/fast_flows.c:507-518 | For every segment, of the failing family and longer than the buffer too, what survives trimming starts in the window and, if in order, fits it. |
| `FlowReceive.ReceiveKeepsValidIff` | tas/fast/fast_flows.c:506-667 | On every segment, of the stream or not and of any length, the receive registers stay sound if and only if it is not one of the failing family of trimming that finds room in the out-of-order interval. |
| `FlowReceive.StaysInsideIff` | tas/fast/fast_flows.c:1358-1383 | On every segment, the copies stay inside the receive buffer if and only if it is not one of the failing family that finds room in the out-of-order interval and is longer than what is left of the buffer plus the whole buffer. |
| `FlowReceive.PastExample` | tas/fast/fast_flows.c:1358-1383 | A 300-byte segment at sequence number 2^32 - 56 and a 100-byte buffer: the last 150 bytes are copied behind the buffer. |
| `FlowReceive.IntervalTrim` | tas/fast/fast_flows.c:616-632 | Re-trimming the out-of-order interval, whose length passes through 16 bits, removes exactly the part the stream has overtaken, and drops an interval that lies outside the window. |
| `FlowReceive.OvertakeMergeable` | tas/fast/fast_flows.c:600-620 | After any in-order delivery the stored interval is in a position the re-trim can judge; one left over beyond the window is dropped by it. |
| `ReceiveReliability.StoreRefines` | tas/fast/fast_flows.c:520-555 | Storing out-of-order payload at its wrapped buffer position keeps every byte the receiver relies on and follows the reference receiver over stream offsets. |
| `ReceiveReliability.IntervalRefines` | tas/fast/fast_flows.c:529-553 | The interval registers start, grow at either end or stay exactly as the reference interval does. |
| `ReceiveReliability.MergeRefines` | tas/fast/fast_flows.c:617-650 | Reconsidering the interval joins it, shortens it or drops it exactly as the reference does, and the extra bytes announced are the joined ones. |
| `ReceiveReliability.DeliverRefines` | tas/fast/fast_flows.c:600-653 | In-order delivery with the interval merge announces exactly the next bytes of the sender's stream. |
| `ReceiveReliability.FinFollows` | tas/fast/fast_flows.c:655-667 | End of stream is accepted exactly when every byte before the FIN has been received and nothing is stored out of order. |
| `ReceiveReliability.AfterFinIgnored` | tas/fast/fast_flows.c:506-667 | A packet sent after the FIN, one sequence number beyond the stream, changes nothing, before and after the FIN was taken. |
| `ReceiveReliability.ReceiveRefines` | tas/fast/fast_flows.c:506-667 | One segment, however cut, delayed or repeated, or a packet sent after the FIN: registers, buffer and announcement follow the reference receiver over unbounded stream offsets. |
| `ReceiveReliability.Answered` | tas/fast/fast_flows.c:449-667 | A segment is in order exactly if it reaches the next expected offset and does not start behind it; it is answered exactly if it carries payload, is not in order, or its FIN is taken. |
| `ReceiveReliability.AdvertisedNotInHole` | tas/fast/fast_flows.c:506-518 | Any segment of the stream that respects the advertised window is covered by the theorems. |
| `ReceiveRuns.IdealSound` | tas/fast/fast_flows.c:506-667 | The reference receiver invents no byte, never moves back, never moves the right edge of the window, takes every byte that continues the stream and fits, and takes a FIN once complete. |
| `ReceiveRuns.OutOfOrderKept` | tas/fast/fast_flows.c:520-555 | Payload out of order is kept exactly if nothing is stored yet or it touches what is stored, and nothing stored is lost to it. |
| `ReceiveRuns.GapClosed` | tas/fast/fast_flows.c:616-650 | A segment that reaches a stored interval shorter than 2^16 makes the stream advance past the whole interval. |
| `ReceiveRuns.RunDelivers` | tas/fast/fast_flows.c:506-667 | Over every sequence of arrivals, packets after the FIN included, and of buffer space given back, the bytes announced are exactly the next stretch of the sender's stream. |
| `ReceiveRuns.StreamPrefix` | tas/fast/fast_flows.c:506-667 | From a flow as installed, with an out-of-order interval left over from the slot's previous flow as long as it starts beyond the new window and ends before the new stream, everything ever announced is a prefix of the sender's stream, and all of it once end of stream is reported. |
| `RecycledFlow.RecycledIff` | tas/slow/nicif.c:280-311 | For every interval a previous flow can have left, wherever the new initial sequence number puts it: announcements are a prefix of the sender's stream on every stream and every run if and only if the interval is empty, or beyond the window, or starts right behind the window and stays below 2^16 bytes and out of the failing family of trimming, or starts before the stream and reaches only its first byte, or is so long that its 16-bit length never reaches the stream. |
| `RecycledFlow.LeftoverExample` | tas/slow/nicif.c:280-311 | 100-byte buffer, ten bytes left over right behind the first: a one-byte segment makes the receiver announce eleven. |
| `RecycledFlow.LeftEdgeExample` | tas/slow/nicif.c:280-311 | 100-byte buffer, ten bytes left over around the start of the stream: a one-byte segment makes the receiver announce five. |
| `LeftoverBreaks.AheadBreaks` | tas/fast/fast_flows.c:616-650 | Every interval left over that starts inside the window behind its first byte, or right behind the window and of 2^16 bytes or more, has a stream and a run on which it is announced without having been received. |
| `LeftoverBreaks.EdgeGrowsBreaks` | tas/fast/fast_flows.c:520-555 | So has one right behind the window, if bytes stored before it can make it longer than 16 bits can say. |
| `LeftoverBreaks.EdgeHoleBreaks` | tas/fast/fast_flows.c:616-632 | So has one right behind the window that the re-trim, being of the failing family, does not cut off. |
| `LeftoverBreaks.BehindBreaks` | tas/fast/fast_flows.c:616-650 | So has one that starts before the stream and reaches past its first byte. |
| `LeftoverBreaks.BehindGrowsBreaks` | tas/fast/fast_flows.c:520-555 | So has a longer one whose 16-bit length bytes stored behind it can make reach the stream. |
| `LeftoverSafe.DormantPrefix` | tas/fast/fast_flows.c:506-667 | For all other intervals that touch the window: whatever arrives, stored or delivered, everything announced is a prefix of the sender's stream. |
| `TransmitReliability.AckRefines` | tas/fast/fast_flows.c:470-504 | An acknowledgement moves the unacknowledged edge exactly to the offset it names, including beyond what was sent since a rewind; the third duplicate in a row rewinds; sequence number, buffer position and counts stay images of the same offset. |
| `TransmitReliability.AckedRefines` | tas/fast/fast_flows.c:479-494 | Acknowledging any number of buffered bytes keeps sequence number and position consistent, sent or not. |
| `TransmitReliability.ResetRefines` | tas/fast/fast_flows.c:1771-1785 | Going back to the oldest unacknowledged byte leaves exactly the state in which nothing after it was sent. |
| `TransmitReliability.SendRefines` | tas/fast/fast_flows.c:197-236 | Every segment starts at the offset its sequence number names, carries exactly the application's bytes from there, has FIN exactly when it covers the dummy byte, and never carries that byte. It ends at the end of the data, at the edge of the peer's window or after one maximum segment, whichever is first; none is sent exactly if that leaves nothing. |
| `FastFlow.FlowRegisters.constructor` | tas/slow/nicif.c:280-311 | A flow as installed: empty buffers, full window, both initial sequence numbers, and out-of-order registers and duplicate count as the slot's previous flow left them; the registers are sound if and only if those leftovers are. |
| `FastFlow.DmaWrite` | tas/fast/fast_flows.c:1358-1371 | A contiguous copy changes exactly the cells it covers and reports what lands behind the array. |
| `FastFlow.FlowRegisters.RxWrite` | tas/fast/fast_flows.c:1358-1371 | Writing in one or two copies stores the bytes at consecutive cells modulo the buffer length and changes no other; the bytes that land behind the buffer are exactly those that do not fit the second copy. |
| `FastFlow.FlowRegisters.RxSeqWrite` | tas/fast/fast_flows.c:1374-1383 | The cell for a sequence number in the window, whatever the length of the payload. |
| `FastFlow.FlowRegisters.TxRead` | tas/fast/fast_flows.c:1343-1355 | Reading in one or two copies returns consecutive cells modulo the buffer length. |
| `FastFlow.FlowRegisters.ResetRetransmit` | tas/fast/fast_flows.c:1771-1785 | In place, the rewind that ResetRefines is about. |
| `FastFlow.FlowRegisters.Retransmit` | tas/fast/fast_flows.c:1304-1335 | In place, the timeout rewind, and a queue request exactly when more can be sent than before. |
| `FastFlow.FlowRegisters.Qman` | tas/fast/fast_flows.c:197-236 | In place, the segment that SendRefines is about, within the peer's window, payload read from the wrapped buffer. |
| `FastFlow.FlowRegisters.SendStream` | tas/fast/fast_flows.c:197-236 | In place and in terms of the application's stream: the segment carries exactly its bytes, as far as data, window and segment size go, FIN exactly on the dummy byte. |
| `FastFlow.FlowRegisters.AckInPlace` | tas/fast/fast_flows.c:470-504 | In place, the acknowledgement step that AckRefines is about. |
| `FastFlow.FlowRegisters.StoreOutOfOrder` | tas/fast/fast_flows.c:520-555 | In place, the out-of-order step that StoreRefines is about, with the bytes it copies behind the buffer. |
| `FastFlow.FlowRegisters.AdvanceInPlace` | tas/fast/fast_flows.c:604-611 | In place, the advance of window, position and sequence number. |
| `FastFlow.FlowRegisters.MergeInPlace` | tas/fast/fast_flows.c:616-650 | In place, the merge that MergeRefines is about. |
| `FastFlow.FlowRegisters.DeliverInPlace` | tas/fast/fast_flows.c:600-653 | In place, the delivery that DeliverRefines is about. |
| `FastFlow.FlowRegisters.ReceiveInPlace` | tas/fast/fast_flows.c:506-667 | In place, the whole receive step that ReceiveRefines is about, on every segment, with the bytes it copies behind the buffer, which StaysInsideIff is about. |
| `FastFlow.FlowRegisters.ReceiveStream` | tas/fast/fast_flows.c:506-667 | In place and in terms of the remote stream: the cells announced hold exactly the next piece of it, end of stream is announced only after all of it, and the answer is the one Answered is about. |
| `FastFlow.FlowRegisters.Packet` | tas/fast/fast_flows.c:352-735 | In place, every packet: hand-over to the slow path, acknowledgement, receive, update for the application, queue request and reply. |
| `FastFlow.FlowRegisters.Bump` | tas/fast/fast_flows.c:1172-1250 | In place, an application bump with every way it is refused, the queue request and the window update. |
| `FlowState.NextNotStale` | tas/fast/fast_flows.c:1174-1181 | The wrapping check for bumps out of order never rejects the number that directly follows. |
| `FlowState.StaleSeparates` | tas/fast/fast_flows.c:1174-1181 | A bump up to a quarter of the sequence numbers ahead of the last one is taken, one up to about half of them behind it is refused. |
| `FlowState.BumpIff` | tas/fast/fast_flows.c:1172-1237 | Which bumps are taken, in plain arithmetic: not stale, end of stream only with a byte, both buffers large enough (the receive part judged by the transmit length), nothing added after the end of the stream; what a taken one changes; that a refused one changes the sequence number at most. |
| `FlowState.WindowUpdateIff` | tas/fast/fast_flows.c:1238-1250 | A taken bump asks for a window update exactly if it opens a closed receive window and nothing can be sent that would tell the peer. |
| `FlowState.BumpAccepted` | tas/fast/fast_flows.c:1184-1237 | A bump within the free part of both buffers is accepted and takes full effect if the receive buffer is no longer than the transmit buffer. |
| `FlowState.BumpAcceptedIff` | tas/fast/fast_flows.c:1209 | The bump that gives back a fully read receive buffer is accepted if and only if the receive buffer is no longer than the transmit buffer, because the check uses the transmit length. |
| `FlowState.BumpRefused` | tas/fast/fast_flows.c:1209 | A two-byte receive and a one-byte transmit buffer: the bump that gives both bytes back is refused. |
| `LibConn.GrantExact` | lib/tas/conn.c:280-315 | A grant is as long as asked for as far as the buffer goes, starts right behind what is reserved already, and has a second piece, at the start of the buffer, exactly if it does not fit before the end. |
| `LibConn.SendIff` | lib/tas/conn.c:317-338 | Sending succeeds exactly if that much is reserved; the end of the reserved space stays where it is. |
| `LibConn.CloseIff` | lib/tas/conn.c:340-387 | Closing succeeds exactly if nothing is reserved and the stream was not closed; the dummy byte then is in the buffer unless that is full. |
| `LibConn.DoneIff` | lib/tas/conn.c:226-243 | Giving back succeeds exactly if that much is unread, and is announced exactly once more than a quarter of the buffer is freed. |
| `LibConn.UpdateIsTaken` | lib/tas/init.c:783-892 | A connection update moves exactly its credit; a postponed end of stream then always finds room, so the abort is unreachable; TXCLOSED is raised exactly when the last byte of a closed stream is acknowledged. |
| `LibConn.EventsExact` | lib/tas/init.c:765-892 | Each of these is raised at most once: SENDBUF exactly if the update frees space in a full transmit buffer, TXCLOSED exactly if it acknowledges the last byte of a closed stream, RXCLOSED exactly if it carries the end of the remote stream; only on an open connection. |
| `LibConn.UpdateFits` | lib/tas/init.c:785-817 | The events of an update never overrun the caller's array. |
| `LibConn.NeededIsRaised` | lib/tas/init.c:785-812 | Room is made for exactly the events the update raises if and only if the own stream was not already closed and acknowledged; then room is made for one more. |
| `LibConn.TakenIffFits` | lib/tas/init.c:814-892 | An update is taken if and only if its events, and that one more, fit the array. |
| `LibConn.PollForOneStarves` | lib/tas/init.c:800-817 | After our stream is closed and acknowledged, a one-byte update is never taken by polls for one event. |
| `LibConn.OpenedExact` | lib/tas/init.c:558-618 | Opening raises the outcome first, then exactly what had arrived and the end of the stream if it had; it is postponed exactly if that does not fit the array. |
| `LibContext.Context.constructor` | lib/tas/init.c:115-138 | A context with no connection waiting. |
| `LibContext.Context.MarkBump` | lib/tas/conn.c:470-490 | A connection is queued once, at the end; the list holds exactly the connections marked as waiting; a list that has lost its first element stays lost. |
| `LibContext.Context.Unlink` | lib/tas/conn.c:168-189 | A connection leaves the list wherever it is, and the others stay in order, unless it was the only one; in a list that has lost its first element it is not found, which aborts. |
| `LibContext.Context.Close` | lib/tas/conn.c:161-224 | A closing connection leaves the list of waiting ones, also if the close itself fails; the list can still be walked if and only if it could be and the connection was not the only one waiting; the abort is reached if and only if the list has lost its first element and the connection is waiting. |
| `LibContext.Context.TxAlloc2` | lib/tas/conn.c:280-315 | In place, the grant that GrantExact is about; none after close. |
| `LibContext.Context.TxSend` | lib/tas/conn.c:317-338 | In place: allocated bytes become sent, and the connection is queued unless it is already. |
| `LibContext.Context.PushTxEos` | lib/tas/conn.c:363-387 | In place: the dummy byte takes one byte of the buffer if there is one. |
| `LibContext.Context.TxClose` | lib/tas/conn.c:340-361 | In place: refused with unsent bytes or twice; otherwise the end of stream is pushed or postponed. |
| `LibContext.Context.RxDone` | lib/tas/conn.c:226-243 | In place: read bytes are collected and announced once they exceed a quarter of the buffer. |
| `LibContext.Context.TakeRx` | lib/tas/init.c:819-847 | In place: one or two receive events for the announced range, and the wrapped head. |
| `LibContext.Context.TakeTx` | lib/tas/init.c:849-882 | In place: freed bytes, the postponed end of stream, and its acknowledgement, with the events EventsExact is about. |
| `LibContext.Context.ArxConnUpdate` | lib/tas/init.c:749-893 | In place, the whole update for a connection being opened, open or closed, with the events EventsExact is about; nothing changes when they do not fit, or when the connection is closed. |
| `LibContext.Context.EventsNeeded` | lib/tas/init.c:785-812 | The number counted beforehand is the number of events the update raises, which EventsExact is about, plus one if the own stream was already closed and acknowledged. |
| `LibContext.Context.ConnOpened` | lib/tas/init.c:558-618 | In place: buffers become known and data that arrived before is announced as OpenedExact says, or nothing changes for lack of room; a failed open closes the connection. |
| `LibContext.Context.FlushFirst` | lib/tas/init.c:948-970 | The entry carries exactly the collected credit, which is then zero, with the next sequence number; the connection leaves the list. |
| `LibContext.Context.ConnsBump` | lib/tas/init.c:935-972 | Waiting connections are flushed in order, each once, until the list is empty or the first one's queue is full; every slot used is accounted for and no other connection changes. Once the list has lost its first element, nothing is flushed, whoever waits. |
| `LibContext.LostBumpExample` | lib/tas/conn.c:161-224 | From a new context: the only waiting connection is closed, another is queued; flushing then sends nothing, although it waits, and closing it aborts. |
| `CreditConservation.ArriveInv` | tas/fast/fast_flows.c:455-716 | A packet keeps the connection invariant: transmit and receive credit is conserved between registers, both queues and the library's counts. |
| `CreditConservation.ArriveWindow` | tas/fast/fast_flows.c:428-575 | The window that counts is that of the last segment in order; a packet for the slow path changes nothing but that flag, which only packets with unusual flags and no SYN set. |
| `CreditConservation.ArriveNames` | tas/fast/fast_flows.c:669-704 | The update names the place in the buffer where the announced bytes of the remote stream are. |
| `CreditConservation.SendInv` | tas/fast/fast_flows.c:197-236 | Sending keeps the connection invariant. |
| `CreditConservation.RetransmitInv` | tas/fast/fast_flows.c:1304-1318 | A timeout rewind keeps the connection invariant. |
| `CreditConservation.BumpNeverRefused` | tas/fast/fast_flows.c:1174-1212 | In every reachable state of a connection whose receive buffer is no longer than its transmit buffer, the next bump from the library is accepted and takes full effect. |
| `CreditConservation.BumpInv` | tas/fast/fast_flows.c:1182-1237 | Taking a bump moves exactly its credit from the queue to the registers. |
| `CreditConservation.PushInv` | lib/tas/conn.c:363-387 | Pushing the dummy byte keeps the invariant; the end-of-stream mark travels with exactly that byte. |
| `CreditConservation.UpdateReady` | lib/tas/init.c:765-817 | In every reachable state the next update frees no more than was sent and announces no more than fits, and frees nothing before the connection is open. |
| `CreditConservation.TakeInv` | lib/tas/init.c:819-890 | Taking an update keeps conservation, positions and end-of-stream marks. |
| `CreditConservation.UpdateInv` | lib/tas/init.c:749-893 | An update with the postponed end of stream keeps the invariant. |
| `CreditConservation.OpenedInv` | lib/tas/init.c:558-618 | Opening the connection with data already received keeps the invariant. |
| `CreditConservation.AllocInv` | lib/tas/conn.c:280-315 | Reserving transmit space keeps the invariant. |
| `CreditConservation.FillInv` | lib/sockets/transfer.c:312-322 | Whatever the application writes into space it reserved, no unacknowledged byte of the transmit buffer changes. |
| `Writing.FilledIsStep` | lib/sockets/transfer.c:418-421 | The pieces granted to the application are the place of the buffer that the write step of the model writes to. |
| `Writing.WrittenIsSent` | lib/sockets/transfer.c:386-434 | What is written into granted pieces and sent is what the stream gains, behind the untouched bytes reserved before. |
| `Writing.SplitWrite` | include/utils_circ.h:109-127 | Bytes written at an offset of the granted space land in the right cells of either piece, and no other cell changes. |
| `Writing.CopyVector` | lib/sockets/transfer.c:312-322 | The elements of a vector, written one after the other, fill the granted pieces with the first bytes of all of them. |
| `CreditConservation.SendBytesInv` | lib/tas/conn.c:317-338 | Committing reserved bytes keeps the invariant: the buffer holds the application's stream from the oldest unacknowledged byte on. |
| `CreditConservation.CloseInv` | lib/tas/conn.c:340-361 | Closing keeps the invariant, also when the end of stream is postponed. |
| `CreditConservation.ReadInv` | lib/tas/conn.c:226-243 | Giving back read bytes keeps the invariant. |
| `CreditConservation.ReadIsStream` | lib/sockets/transfer.c:197-220 | In every reachable state the unread part of the buffer is the next piece of the remote stream. |
| `CreditConservation.FlushInv` | lib/tas/init.c:948-965 | Flushing a connection moves exactly its collected credit into the queue. |
| `ConnectionRuns.StepBase` | tas/fast/fast_flows.c:352-735 | Every step but taking a bump keeps credit conservation, positions and stream contents whatever the buffer lengths. |
| `ConnectionRuns.StepInv` | tas/fast/fast_flows.c:352-735 | Every step of library, fast path, application or network keeps the invariant. |
| `ConnectionRuns.StepRight` | tas/fast/fast_flows.c:352-735 | Every step shows the outside only what is right: no refused bump; segments with exactly the application's bytes, within the peer's window, FIN exactly on the dummy byte; reads that continue the stream; space granted where the stream goes on and free; TXCLOSED and RXCLOSED when due and not twice. |
| `ConnectionRuns.RunSafe` | tas/fast/fast_flows.c:352-735 | The same over every interleaving; what is read is consecutive stream, and TXCLOSED and RXCLOSED are raised as often as their flags change. |
| `ConnectionRuns.InitialInv` | tas/slow/nicif.c:280-311 | A connection just installed, with buffers of any length, any duplicate count left over and an out-of-order interval left over beyond the receive window, satisfies the invariant of StepBase, and that of StepInv if and only if the receive buffer is no longer than the transmit buffer. |
| `ConnectionRuns.ConnectionSafe` | tas/fast/fast_flows.c:352-735 | From installation on, in a fresh or used slot, over every interleaving: all outputs right, everything read is a prefix of the remote stream, TXCLOSED and RXCLOSED at most once each. |
| `ConnectionRuns.EndReported` | lib/tas/init.c:765-892 | The end of the remote stream is never lost between fast path and library: with all updates taken, the application has been told exactly if it was received. |
| `BufferMismatch.RefusedUnlessFits` | tas/fast/fast_flows.c:1208-1212 | For every receive buffer longer than the transmit buffer there is a run from connection setup (a buffer full received, announced, read and given back) after which the fast path refuses the library's bump. |
| `ConnectionRuns.DrainedWindow` | lib/tas/conn.c:235-240 | With nothing queued, pending or unread, at least three quarters of the receive buffer are offered to the peer. |
| `Stranding.RequestCovers` | tas/fast/fast_flows.c:706-716 | A step asks the queue manager for bytes exactly if it lets the flow send more than before, and then for exactly what the flow can send; sending uses up one chunk. |
| `Stranding.StepCovers` | tas/fast/fast_flows.c:1213-1232 | For a flow with its queue to itself, every step, every firing of the queue and every packet of another flow keeps queue count plus bytes in flight at least what the flow could send. |
| `Stranding.NothingStranded` | tas/fast/fast_flows.c:197-202 | For a flow with its queue to itself, at every batch boundary of every run, what it could send is queued. |
| `Stranding.ExclusiveIff` | tas/fast/fast_flows.c:364 | A flow's queue is armed by its own packets and by no other flow's if and only if its id is below 65536 and no id 65536 larger is in use; in a table as large as the repository's that is so for no flow. |
| `Stranding.StrandsUnlessExclusive` | tas/fast/fast_flows.c:706-716 | Every other flow has a run from connection setup to a batch boundary at which it could send a byte and its queue is empty. |
| `Timestamps.RelTimeAbsolute` | tas/fast/qman.c:298-341 | Comparing wrapped timestamps is comparing the times, for all times less than half the range apart. |
| `Timestamps.StampOfRel` | tas/fast/qman.c:298-341 | The relative time of any stored timestamp leads back to it. |
| `Timestamps.PastIffRecent` | tas/fast/qman.c:298-341 | A past time still compares as past if and only if the time elapsed, modulo the range, is below half of it (with the tie at exactly half). |
| `Timestamps.HalfRangeLater` | tas/fast/qman.c:298-341 | After 2^31 + 1 ns the present compares as the past. |
| `FlowQman.ScanLevel` | tas/fast/qman.c:764-775 | Following one level from the predecessor found above yields the last queue of that level due no later. |
| `FlowQman.FindPredecessors` | tas/fast/qman.c:763-775 | The top-down search yields, at every level, the last queue due no later than the new one. |
| `FlowQman.ClampedDue` | tas/fast/qman.c:749-761 | The timestamp a queue is activated with is its own, moved to now if past and to one full chunk from now if later than that. |
| `FlowQman.ClampPastIff` | tas/fast/qman.c:749-761 | A queue whose stored time is still ahead is put into the past if and only if the time of one chunk, modulo the timestamp range, is more than half of it (with the tie at exactly half). |
| `FlowQman.SlowestRate` | tas/fast/qman.c:749-761 | 1400 bytes at 1 kbit/s is such a case. |
| `FlowQman.LevelInserted` | tas/fast/qman.c:781-795 | After linking a queue in, every level is the chain of exactly the queues tall enough for it, in time order. |
| `FlowQman.BeyondIff` | tas/fast/qman.c:813-832 | The test on the first queue says beyond if and only if it is due after the virtual time real time allows, or the gap since the last poll is one the comparison takes for a step back. |
| `FlowQman.GapTooLong` | tas/fast/qman.c:813-832 | A gap of 2^31 + 1 ns moves virtual time past a listed queue; one of 2^32 + 1 ns passes for 1 ns. |
| `FlowQman.FlowQman.constructor` | tas/fast/qman.c:571-593 | Empty lists and queues at virtual time zero. |
| `FlowQman.FlowQman.ActivateNolimit` | tas/fast/qman.c:679-700 | An unlimited queue goes to the end of its list. |
| `FlowQman.FlowQman.ActivateSkiplist` | tas/fast/qman.c:734-798 | The four-level skip list refines a stable queue ordered by due time: the queue goes behind everything due no later, before everything due later, whatever level is drawn. |
| `FlowQman.FlowQman.LinkLevels` | tas/fast/qman.c:781-795 | At every level up to the one drawn the queue is linked in right behind its predecessor there, or becomes the head; no other link changes. |
| `FlowQman.FlowQman.Activate` | tas/fast/qman.c:923-931 | A queue is linked into exactly one of the two lists, the one for its rate; a rate-limited one is due as ClampedDue says. |
| `FlowQman.FlowQman.Fire` | tas/fast/qman.c:885-921 | A firing takes the smaller of the bytes queued and one chunk, is recorded at the current virtual time, and keeps the pacing of the whole history; with bytes left the queue is in the list for its rate, due when the chunk's time has passed. |
| `FlowQman.FlowQman.PopNolimit` | tas/fast/qman.c:712-720 | The oldest unlimited queue is taken off. |
| `FlowQman.FlowQman.PollNolimit` | tas/fast/qman.c:703-731 | Unlimited queues are served round robin; bytes reported are bytes taken; fewer than asked for only if the list is empty. |
| `FlowQman.FlowQman.PopSkip` | tas/fast/qman.c:834-842 | The first queue in time order leaves every level it heads and virtual time moves to it. |
| `FlowQman.FlowQman.ServeWhileDue` | tas/fast/qman.c:815-852 | Queues are served while the first one is due; it stops exactly when fewer than asked for were served. A queue alone in its VM with more than a chunk fires exactly once and waits. |
| `FlowQman.FlowQman.ServeDue` | tas/fast/qman.c:815-852 | The loop over due queues: fewer events than asked for only if none is left or the first one left is not due; then virtual time is where real time allows. |
| `FlowQman.FlowQman.PollSkiplist` | tas/fast/qman.c:801-870 | For any gap since the last poll: virtual time passes a listed queue if and only if there is one and the gap is one the comparison takes for a step back. Otherwise queues fire in order of due time, never past the virtual time real time allows, and bytes reported are bytes taken; with room left, no queue is due any more. |
| `FlowQman.FlowQman.FinishSkip` | tas/fast/qman.c:855-868 | After a full batch virtual time is at the next queue, or at what real time allows if that is earlier. |
| `FlowQman.FlowQman.Poll` | tas/fast/qman.c:595-617 | Both lists, the first one alternating from poll to poll. With room left, virtual time is where real time allows, and no queue waits without limit and none is due, if and only if no queue of the list polled first fires into the other one. An empty result that is not rate limited means nothing is queued at all; rate limited means something is, unless a queue ran out of bytes in the skip list. |
| `FlowQman.FlowQman.Set` | tas/fast/qman.c:646-676 | Rate, chunk size and count change as asked, the queue enters the list for its rate if it got bytes and was in none, and no list changes otherwise, so that it is in the wrong list exactly if its rate crosses zero while listed; no queue with bytes is ever unlinked, and a listed queue is left without bytes exactly if its count is set to zero. |
| `FlowQman.HomedNotStray` | tas/fast/qman.c:595-617 | With every queue in the list for its rate, none fires into the other one. |
| `StrayQueue.StrayExample` | tas/fast/qman.c:646-676 | From empty queues: a paced flow fires, its rate limit is taken away, and a poll with room for all of it will leave its bytes waiting. |
| `FlowQman.FiredPaced` | tas/fast/qman.c:894-907 | Pacing in bytes and kbit/s: between consecutive firings of a queue with an unchanged rate lies, to the nanosecond, at least the time the first one's bytes take. |
| `FlowQman.AdvanceTime` | tas/fast/qman.c:819-832 | Virtual time may move to anything no listed queue is due before. |
| `FlowQman.FirstHeads` | tas/fast/qman.c:834-837 | The first queue heads exactly the levels up to its height. |
| `FlowQman.PopSkipCore` | tas/fast/qman.c:834-842 | Unlinking the first queue and moving time to it leaves it ready to fire on its pace. |
| `SkipLevels.EnqueueSorted` | tas/fast/qman.c:734-798 | The reference queue stays sorted, without duplicates, and gains exactly the new element. |
| `FlowQueues.DelayExact` | tas/fast/qman.c:872-876 | The delay of a chunk is its exact time at the rate, rounded down to a nanosecond. |
| `FlowQueues.DelayMonotone` | tas/fast/qman.c:872-876 | More bytes never take less virtual time. |
| `VmQman.DebitExactIff` | tas/fast/qman.c:503-515 | Keeping a VM's count modulo 2^32 is exact if and only if the stored count is not zero or nothing, modulo 2^32, was served; all totals. |
| `VmQman.DebitStuckAtZero` | tas/fast/qman.c:503-515 | 2^32 bytes queued and one served: the count stays zero. |
| `VmQman.VmQman.constructor` | tas/fast/qman.c:354-386 | No VM linked, nothing pending. |
| `VmQman.VmQman.Activate` | tas/fast/qman.c:546-564 | A VM is linked at the end. |
| `VmQman.VmQman.Pop` | tas/fast/qman.c:407-415 | The first VM is taken off the list. |
| `VmQman.VmQman.VmSet` | tas/fast/qman.c:517-544 | The VM's count changes by the flow's change modulo 2^32, and a VM whose count is not zero is linked, at the end if it was not. |
| `VmQman.VmQman.Set` | tas/fast/qman.c:481-501 | Changing a flow keeps every VM's count equal to the sum over its flows modulo 2^32, whatever the sums, and every VM whose count is not zero linked once; an unknown VM is refused. |
| `VmQman.CountFits` | tas/fast/qman.c:517-544 | The count follows the sum modulo 2^32, also where a flow's own count wraps. |
| `VmQman.VmQman.PollVm` | tas/fast/qman.c:419-432 | A VM's total drops by exactly the bytes its flows were served; its count still equals the total modulo 2^32 if and only if it was not zero or nothing, modulo 2^32, was served; with room left, all there was to do is done. |
| `VmQman.VmQman.Visit` | tas/fast/qman.c:417-444 | For totals of any size: a VM with budget is polled, until all is done if there is room, and linked again if its count is not zero; it becomes the VM to stop at if it was rate limited and had a count before being served, linked or not. A VM without budget is not touched, and set aside if it has a count. |
| `VmQman.VmQman.Turn` | tas/fast/qman.c:405-445 | While no flow waits in a skip list without bytes and no total wraps, each turn serves something, shortens the list, or comes closer to the VM to stop at. A state in which that VM is not linked and all linked VMs wait for their due time is never left, and a turn enters it from states in which the first VM can send all that its 32-bit count shows. |
| `VmQman.VmQman.Spin` | tas/fast/qman.c:404-445 | From that state the loop goes on for any number of turns and serves nothing. |
| `VmWedge.WedgeExample` | tas/fast/qman.c:404-445 | From empty queues, by setting flows and one poll, to a poll for three events whose loop has not ended after any number of turns, with one event served. |
| `VmQman.VmQman.ServeInBudget` | tas/fast/qman.c:404-445 | While no flow waits in a skip list without bytes and no total of a VM with budget wraps, the first pass ends; it serves only VMs with budget; with room left, every linked one of them has been polled until all was done, and every other one with a count is set aside. |
| `VmQman.VmQman.ServeAside` | tas/fast/qman.c:447-476 | For totals of any size, the second pass serves VMs without budget only if the first served nothing, then all of them until the batch is full, and links all of them again. |
| `VmQman.VmQman.ServeBoth` | tas/fast/qman.c:388-479 | Both passes: with room left, every linked VM with budget has been polled until all was done, and so has every other one with a count if no event is of a VM with budget. |
| `VmQman.VmQman.Poll` | tas/fast/qman.c:388-479 | While no flow waits in a skip list without bytes and no total of a VM with budget and a count wraps, the poll ends with at most the events asked for. With fewer, every linked VM with budget was polled at this time: its virtual time is where real time allows, and, its flows being in the lists for their rates, none waits without limit and none is due; the same holds of every other linked VM with a count, if no event is of a VM with budget. Each VM's total drops by exactly what is reported for it; VMs with and without budget never share a batch; every VM with a count is linked, exactly once; every count equals its total modulo 2^32 if and only if no VM with a count of zero was served, modulo 2^32. |
| `DescriptorRing.ProbeSafe` | lib/tas/init.c:896-933 | The slot a probe looks at is empty if and only if the consumer has cleared it. |
| `DescriptorRing.FetchExact` | tas/fast/fast_appctx.c:382-410 | A full slot at the fetch position is the next unfetched message, unless the batch already holds the whole ring. |
| `DescriptorRing.FindsIff` | tas/fast/fast_appctx.c:382-410 | A fetch takes up a message exactly if one is published and not fetched; a probe gains a slot exactly if one was cleared and not counted. |
| `DescriptorRing.StepGood` | tas/fast/fast_appctx.c:370-510 | Every step of producer, consumer or probe keeps slots and credit in step with a first-in first-out queue. |
| `DescriptorRing.RingIsFifo` | tas/fast/fast_appctx.c:370-510 | Over every interleaving the messages taken are exactly those published, in order: none overwritten, skipped or read twice. |
| `DescriptorRing.FetchTwiceIff` | tas/fast/fast_appctx.c:382-410 | A message is fetched twice if and only if the batch already holds the whole ring. |
| `DescriptorRing.SharedRing.constructor` | include/tas_memif.h:321-420 | A ring with all type bytes zero and full credit. |
| `DescriptorRing.SharedRing.Enqueue` | lib/tas/init.c:514-556 | A message is published at the end if there is credit, and nothing happens otherwise. |
| `DescriptorRing.SharedRing.Probe` | lib/tas/init.c:896-933 | Only at half credit or less; each collected slot was cleared; fewer than the limit only if none is left to collect. |
| `DescriptorRing.SharedRing.Fetch` | tas/fast/fast_appctx.c:370-423 | An entry is found exactly when an unfetched message is published. |
| `DescriptorRing.SharedRing.Process` | tas/fast/fast_appctx.c:425-443 | The entry processed is the oldest uncleared message, and its slot is given back. |
| `TimeoutManager.Manager.constructor` | lib/utils/timeout.c:62-70 | No timer armed. |
| `TimeoutManager.Manager.FirstDue` | lib/utils/timeout.c:241-288 | The 28-bit comparison says due exactly when the deadline has come. |
| `TimeoutManager.Manager.MoveDue` | lib/utils/timeout.c:214-239 | Moving due timers changes nothing about who fires when; afterwards no pending timer is due. |
| `TimeoutManager.Manager.Predecessor` | lib/utils/timeout.c:140-143 | The search from the end finds the place behind every timer due no later, its unsigned comparison included. |
| `TimeoutManager.Manager.Arm` | lib/utils/timeout.c:123-160 | The timer goes behind every timer with an earlier or equal deadline and before all later ones, in the order over both lists; a time out of range aborts and changes nothing; the type keeps 4 bits. |
| `TimeoutManager.Manager.Disarm` | lib/utils/timeout.c:162-195 | Exactly the timer disarmed leaves, from whichever list; the abort is unreachable for an armed timer. |
| `TimeoutManager.Manager.Fire` | lib/utils/timeout.c:102-111 | The timer handed to a handler is the earliest armed one, is due, and is off the lists, so handlers may arm and disarm between firings. |
| `TimeoutManager.Manager.FireDue` | lib/utils/timeout.c:102-111 | The due timers leave in order, at most 64; fewer only if none is left. |
| `TimeoutManager.Manager.Poll` | lib/utils/timeout.c:91-115 | Timers fire in order of deadline and, among equals, of arming; none early; at most 64; fewer only if none that is due remains. |
| `TimeoutManager.Manager.Next` | lib/utils/timeout.c:197-212 | The time to the earliest armed timer, zero if one is due, the largest number if none is armed. |
| `LinkedList.List.InsertAfter` | lib/utils/timeout.c:143-159 | The pointer updates insert at exactly that place and keep both directions of the list. |
| `LinkedList.BypassedDoubly` | lib/utils/timeout.c:166-194 | Bypassing a node in both directions leaves the list without exactly that node. |
| `EpollSet.Epoll.constructor` | lib/sockets/epoll.c:73-78 | An instance without registrations. |
| `EpollSet.ReportExact` | lib/sockets/epoll.c:246-268 | The application is told of exactly the pending events it asked for, and a registration is ready exactly if there is one. |
| `EpollSet.Epoll.Activate` | lib/sockets/epoll.c:530-543 | Moves exactly this registration to the end of the active list; both lists stay well formed and disjoint and the counter exact. |
| `EpollSet.Epoll.Deactivate` | lib/sockets/epoll.c:545-558 | Moves exactly this registration to the inactive list. |
| `EpollSet.Epoll.PushBack` | lib/sockets/epoll.c:560-565 | Moves exactly this registration to the end of the active list. |
| `EpollSet.Epoll.AddInactive` | lib/sockets/epoll.c:472-484 | A new registration goes to the front of the inactive list. |
| `EpollSet.Epoll.RemoveActive` | lib/sockets/epoll.c:487-508 | Takes exactly this registration off the active list and counts it. |
| `EpollSet.Epoll.RemoveInactive` | lib/sockets/epoll.c:453-470 | Takes exactly this registration off the inactive list. |
| `EpollSet.Epoll.RemoveEp` | lib/sockets/epoll.c:568-575 | Takes exactly this registration off whichever list it is on. |
| `EpollSet.Epoll.PollTas` | lib/sockets/epoll.c:246-268 | Every ready registration is reported at most once with exactly its pending events, all of them if there is room; reported ones move behind those not served; others become inactive. |
| `EpollWorld.World.Raise` | lib/sockets/epoll.c:387-408 | Over all instances and sockets, raising events keeps every registration with pending events active, although only new events are looked at. |
| `EpollWorld.World.Clear` | lib/sockets/epoll.c:410-414 | Clearing events keeps completeness. |
| `EpollWorld.World.Lookup` | lib/sockets/epoll.c:121 | Finds the socket's registration with the instance exactly if there is one. |
| `EpollWorld.World.CtlAdd` | lib/sockets/epoll.c:120-185 | Refused for unknown flags or if the socket is registered with the instance; otherwise one new registration, active at once if an event is pending; at most one per instance and socket; a refused addition still counts. |
| `EpollWorld.World.CtlMod` | lib/sockets/epoll.c:120-199 | Refused for unknown flags or if the socket is not registered with the instance; otherwise exactly the mask of that registration changes and completeness is kept. |
| `EpollWorld.World.CtlDel` | lib/sockets/epoll.c:120-213 | Exactly the registration of the socket with the instance disappears from both lists; refused, and still counted, if there is none. |
| `EpollWorld.World.Deregister` | lib/sockets/epoll.c:211-213 | Removing a registration keeps all lists and completeness. |
| `EpollWorld.World.SockClose` | lib/sockets/epoll.c:416-425 | Closing a socket removes exactly its registrations from all instances, each of which goes on counting one socket more than it has. |
| `EpollWorld.World.Poll` | lib/sockets/epoll.c:232-271 | Completeness: each ready registration of the instance is reported at most once, and all of them when fewer than the maximum are returned. |
| `EpollWorld.World.Wait` | lib/sockets/epoll.c:294-313 | Because the socket count also counts refused calls and closed sockets, a pass with room left reports every ready registration if and only if that count is not zero or none is ready. |
| `EpollWorld.RefusedRemovalHides` | lib/sockets/epoll.c:294-298 | An instance with one ready registration and one refused removal: the wait returns nothing. |
| `EpollWorld.RefusedRemovalExample` | lib/sockets/epoll.c:294-298 | The sequence of calls that leads there from nothing. |
| `SocketView.Socket.constructor` | lib/sockets/control.c:351-352 | No data, whatever the pointers hold. |
| `SocketView.Socket.Received` | lib/sockets/context.c:318-347 | The one or two pieces stay exactly the unread range of the circular buffer; more than two pieces never occur, with stale or null second pointers and empty events included. |
| `SocketView.Socket.Take` | lib/sockets/transfer.c:197-212 | Copying across the pieces returns the next unread bytes, as many as are wanted and readable, and leaves the view of the rest. |
| `SocketView.Socket.TakeAll` | lib/sockets/transfer.c:104-124 | Vector elements are filled in order with consecutive bytes, each fully unless the data ran out. |
| `SocketStream.UpdateAnnounces` | lib/tas/init.c:819-847 | The events of one update announce exactly the bytes it delivers, one after the other, and leave the head where the next update continues. |
| `SocketStream.Reader.constructor` | lib/tas/init.c:599-608 | What arrived before the connection opened is announced with it. |
| `SocketStream.Reader.Update` | lib/tas/init.c:749-893 | Taking an update keeps the undispatched events a gapless announcement from what the socket shows to what the library counts. |
| `SocketStream.Reader.Dispatch` | lib/sockets/context.c:296-353 | Dispatching any undispatched event never aborts. |
| `SocketStream.Reader.Recv` | lib/sockets/transfer.c:197-220 | With updates, dispatches and reads in any order, a read returns the next bytes of the remote stream and gives back exactly their space. |
| `SocketStream.Reader.RecvMsg` | lib/sockets/transfer.c:104-132 | So does a vectored read, across its vector elements. |
| `RssBalance.Rss.constructor` | tas/fast/network.c:494-508 | The table goes round the active cores: counts exact, no core with over one entry more than another, NIC equal to the table. |
| `RssBalance.Rss.Deal` | tas/fast/network.c:494-503 | The entries go round the active cores; counts exact, no core with over one entry more than another. |
| `RssBalance.Rss.CoreMax` | tas/fast/network.c:376-388 | The last core with the most entries. |
| `RssBalance.Rss.CoreMin` | tas/fast/network.c:362-374 | The first core with the fewest entries if some core has fewer than 255, otherwise core 0. |
| `RssBalance.Rss.MinMissed` | tas/fast/network.c:362-374 | Of cores with 300 and 255 entries the search returns the busier one. |
| `RssBalance.Rss.FindEntry` | tas/fast/network.c:405-415 | The cyclic search ends, because the core has an entry, and finds one. |
| `RssBalance.Rss.TakeOne` | tas/fast/network.c:402-417 | The core an entry is taken from is the busiest and has more than its share. |
| `RssBalance.Rss.ScaleUp` | tas/fast/network.c:390-427 | Every new core gets exactly size/new entries, no old core falls below the smaller of its count and that share, one that gave has at most one entry fewer than any other old core, counts stay exact, the mask marks exactly the changed entries and the NIC ends up equal to the table. |
| `RssBalance.FairIff` | tas/fast/network.c:390-419 | After a scale-up every core has its share if and only if every old core had that many before. |
| `RssBalance.StaysBalanced` | tas/fast/network.c:390-419 | Old cores balanced within one entry stay so. |
| `RssBalance.BalancedHasShare` | tas/fast/network.c:390-419 | A table balanced within one entry gives every core the share of any larger number of cores. |
| `RssBalance.Rss.Rehome` | tas/fast/network.c:442-452 | An entry of a core that goes away moves to the least busy remaining core. |
| `RssBalance.Rss.ScaleDown` | tas/fast/network.c:429-462 | Every entry names a remaining core, entries of remaining cores stay, and a core that gained has at most one entry more than any other unless the table is too large for the 8-bit start of the search. |
| `RssTable.CountsTotal` | tas/fast/network.c:495-501 | The counts over all cores add up to the table size. |
| `PacketBlocks.CarvedTiled` | tas/slow/packetmem.c:83-109 | Allocation, with or without a split, leaves every address of the range in exactly one free or live block. |
| `PacketBlocks.FreedTiled` | tas/slow/packetmem.c:117-170 | So does freeing, wherever the block lands in the list and whatever gets merged. |
| `PacketBlocks.MergedExactly` | tas/slow/packetmem.c:145-170 | Exactly the list neighbours that are adjacent in memory are joined, before and behind, and no other block changes. |
| `PacketBlocks.RunTiled` | tas/slow/packetmem.c:64-170 | After every sequence of allocations and releases no byte is lost and no two blocks overlap. |
| `PacketBlocks.InOrderIff` | tas/slow/packetmem.c:121-136 | Insertion keeps an address-ordered list in order if and only if the block goes to the front. |
| `PacketBlocks.StaysInPieces` | tas/slow/packetmem.c:121-170 | A run after which nothing is allocated and the memory is still in three pieces. |
| `PacketMem.Allocator.constructor` | tas/slow/packetmem.c:55-58 | One free block over the whole range. |
| `PacketMem.Allocator.FirstFit` | tas/slow/packetmem.c:69-75 | The first free block that is long enough, if any. |
| `PacketMem.Allocator.Alloc` | tas/slow/packetmem.c:64-115 | Fails exactly when no free block is long enough or a split lacks a handle, and then changes nothing; otherwise gives the front of the first that is, and the tiling is kept. |
| `PacketMem.Allocator.FreePlace` | tas/slow/packetmem.c:121-127 | Where the insertion search stops. |
| `PacketMem.Allocator.MergeItems` | tas/slow/packetmem.c:145-170 | Merges with the list predecessor and then the successor exactly when they are adjacent. |
| `PacketMem.Allocator.Free` | tas/slow/packetmem.c:117-140 | The block returns to the list, merged or not, and the tiling is kept. |

## Left out

- GRE tunnels, header construction, checksums, TCP option parsing, DPDK, tracing, prefetching: no part of the state proved about.
- The flow hash table, the slow path's handshake and port handling, congestion control: other state machines around the one modelled.
- Congestion statistics in the flow state (rate halving, round-trip estimate, drop and acknowledgement counters) and the per-VM cycle budget that makes `fast_flows_packet` drop a packet before touching the flow.
- Flow migration between cores, and connection teardown after both sides closed.
- `tcp_valid_rxseq`, which is compiled only without out-of-order reception.
- Blocking, event descriptors, kernel wake-ups, and the Linux half of `tas_epoll_wait`.
- The slow path's own rings and the proxy between host and guests.
- Command line, configuration, ARP, interposition of libc, and the command-line tools: nothing in them is hard to get right.
- ConnectionRuns.ConnectionSafe: arriving segments are cut from one remote stream, not aliased on the 32-bit circle and outside the family of `TcpCommon.TrimExactIff`; a left-over interval that touches the new window is excluded, even where `RecycledFlow.RecycledIff` says it does no harm; for longer receive buffers `BufferMismatch.RefusedUnlessFits` shows that the theorem fails; the application does not close the connection object.
- RecycledFlow.RecycledIff: the left-over interval is shorter than 2^31 bytes, as it lay inside the buffer of the previous flow.
- FastFlow.FlowRegisters.Packet: the memory behind the receive buffer is not part of the state; what `FastFlow.FlowRegisters.ReceiveInPlace` reports as copied there goes nowhere.
- LibContext.Context.ArxConnUpdate: one state stands for a connection requested or accepted, one for everything after a close request or a failed open.
- ConnectionRuns.StepInv: library calls, fast-path entry points and ring operations are single steps, as the flow lock and the type bytes make them; memory reordering inside one is not modelled.
- DescriptorRing.SharedRing.Fetch: entries are slots of equal size and the ring is at least one batch long, as the queue lengths guarantee.
- FlowQman.FlowQman.Poll: excludes the gaps for which `FlowQman.FlowQman.PollSkiplist` says that virtual time passes a listed queue; after that the skip list is no longer in order.
- FlowQman.FlowQman.Set: the new rate lets one chunk pass in less than 2^31 ns, which is what a 32-bit timestamp can express; `FlowQman.ClampPastIff` says what happens otherwise.
- VmQman.VmQman.Set: the flow id is one of the table, which the source reads before it checks.
- VmQman.VmQman.VmSet: the stored count is a 32-bit number.
- VmQman.VmQman.Poll: listed VMs are polled in time, and a VM with budget and a count has a total below 2^32 and no flow waiting without bytes: without the last two the loop need not end (`VmQman.VmQman.Turn`). What is left to do in a VM with a flow in the list that is not for its rate is said for each poll of that VM by `FlowQman.FlowQman.Poll` alone. An uninitialised count the source passes on in its second pass is an arbitrary parameter.
- TimeoutManager.Manager.Poll: handlers that arm or disarm timers are covered by the contract of `Fire`, which holds between any two of them, not by the summary of one poll.
- TimeoutManager.Manager.Arm: calls are less than 2^27 microseconds apart in time that does not run backwards.
- EpollWorld.World.Raise: a socket's list of registrations is a sequence; its own prev and next pointers are not modelled. Sockets and instances are created beforehand; event masks are sets of flags.
- EpollWorld.World.CtlAdd: running out of memory for a registration is not modelled.
- RssBalance.Rss.constructor: the power-of-two check and the fallback for a NIC that reports no table size are not modelled; the NIC takes the initial table.
- SocketStream.Reader.Recv: waiting for data and the error codes of a closed or unconnected socket are not modelled.
- PacketMem.Allocator.Free: one VM's list; the handle is one that was given out and not freed since.
- LibContext.Context.ConnsBump: the prev pointers of the list are stale after a flush, as in the source, which never reads them.
