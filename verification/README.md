# Verified model of the lwIP core of the Teensy 4.1 Ethernet library

The repository bundles lwIP 2.0.2 with a port to the Teensy 4.1. This project models the parts of
that stack whose correctness is hard to see: the TCP receive and send paths, the heap, the TCP
timers, packet buffers, the Internet checksum, memory pools, the DNS resolver, and the ring buffer
of the FTP server. It models the configuration the repository builds: one thread, IPv4, no window
scaling, no checksum on copy, out-of-sequence queueing on.

For the state machines there are two layers. A specification over unbounded stream positions or
block lists states what one step does and carries the theorems about whole runs. A class or a set of
methods follows the code (32-bit sequence numbers, 16-bit lengths, header cells rewritten in place,
loops over lists) and is proved to do to its state what the specification says.

| files | component |
|---|---|
| SeqNum, Common | fixed-width integers, sequence-number comparison, shared definitions |
| Reassembly, ReceiveQueue, ReceiveRuns, TcpReceive, ReceiveCode | TCP receive path: specification, progress and loss, runs, code, runs of the code |
| HeapSpec, Heap, HeapRuns | heap allocator: block lists, headers in the `ram` array, runs |
| SendSpec, SendRuns, SendWrite, SendClose, SendSorted, SendEvents, SendSound, SendWindow, SendAccept, SendAgain, TcpSend, SendCode | TCP send path: specification, invariants, runs, what is accepted, sent and sent again, code, runs of the code |
| EndToEnd | sender and receiver joined |
| Timers | slow and fast TCP timer |
| Checksum, ChainChecksum | checksum routines, checksums over chains |
| PbufRefs, PbufRuns, PbufData | reference counts of packet buffers, runs, access to their bytes |
| Memp | memory pools and their cycle check |
| Sfifo | ring buffer of the FTP server |
| DnsNames, Dns | names in DNS messages, resolver table |

Where a property that one would expect does not hold of the code, the model keeps the code as it is. A
member states the exact condition under which it holds; beside it stands the case in which it does not:

| exact condition | case |
|---|---|
| `Reassembly.ArriveWindow` | `ReceiveRuns.OverrunWraps` |
| `ReceiveQueue.PlaceKeeps`, `ReceiveQueue.ArriveKeeps` | `ReceiveQueue.InnerCuts` |
| `ReceiveQueue.PlaceEnd`, `ReceiveQueue.ArriveEnd` | `ReceiveQueue.EndDulled` |
| `ReceiveRuns.CreditExact` | `ReceiveRuns.CreditOpens` |
| `SendWrite.WriteFaithful` | `SendEvents.WriteMisplaced`, `EndToEnd.Misdelivered` |
| `SendClose.FinFaithful` | `SendEvents.FinMisplaced` |
| `SendAgain.TimerResends` | `SendAgain.TimerSkips` |
| `SendSorted.RexmitRtoSorted` | `SendEvents.TimerUnsorted` |
| `SendSound.ReadyIff` | `SendSound.WriteUnready` |
| `Timers.LosesNone` | `Timers.RemovalLoses` |
| `Timers.TickHandles` | `Timers.TickMisses` |
| `PbufRefs.JoinedTotals` | `PbufRefs.SharedSpoils` |
| `PbufRefs.CutTotals` | `PbufRefs.CutSpoils` |
| `PbufRefs.Pbufs.Dechain` | `PbufRefs.DechainDangles` |
| `Sfifo.InitEnds` | `Sfifo.InitLoops` |
| `DnsNames.EncodesIff` | `DnsNames.DotUnchecked` |
| `DnsNames.SkipName` | every name that is the root alone |

Assumptions: heap requests and frees are those of a client that passes back what it got; callbacks of
the TCP timers may open and close connections, and say so as TCP_REG_ACTIVE and TCP_RMV_ACTIVE do;
DNS callbacks do not call the resolver; the generator of transaction numbers yields an unused number
in the end. Allocation failures, failing sends, the application and the peer are parameters.

`dafny verify dfyconfig.toml` checks the whole project.

## Model

| member | source | states |
|---|---|---|
| `SeqNum.WireDiff` | t41ether/lwip/src/lwip/priv/tcp_priv.h:106-109 | the signed 32-bit difference of two sequence numbers is the difference of their positions whenever these are less than 2^31 apart |
| `SeqNum.WireOrder` | t41ether/lwip/src/lwip/priv/tcp_priv.h:106-114 | TCP_SEQ_LT, LEQ, GT, GEQ and equality decide the order of two positions moved by offsets, under the same bound |
| `SeqNum.WireSub16` | t41ether/lwip/src/core/tcp_in.c:976 | the 16-bit difference of two sequence numbers is the distance of positions less than 2^16 apart |
| `Reassembly.MergeOrdered` | t41ether/lwip/src/core/tcp_in.c:951-981 | putting a segment in front of the queue leaves it ordered and disjoint, a FIN on its last element at most |
| `Reassembly.MergeAgrees` | t41ether/lwip/src/core/tcp_in.c:951-981 | the merged segment and what is left of the queue carry bytes of the peer's stream at their places |
| `Reassembly.SwallowFin` | t41ether/lwip/src/core/tcp_in.c:962-972 | a FIN is taken over only from the last queued segment, and then nothing is left of the queue |
| `Reassembly.PlaceOrdered` | t41ether/lwip/src/core/tcp_in.c:1530-1647 | queueing an out-of-sequence segment keeps the queue ordered and above rcv_nxt |
| `Reassembly.PlaceAgrees` | t41ether/lwip/src/core/tcp_in.c:1530-1647 | and keeps every queued byte equal to the stream's byte at its position |
| `Reassembly.AdvanceDelivers` | t41ether/lwip/src/core/tcp_in.c:1391-1512 | an in-sequence segment and the queued segments that follow it deliver exactly the stream from the old to the new rcv_nxt |
| `Reassembly.ArriveQueue` | t41ether/lwip/src/core/tcp_in.c:1394-1647 | after every arriving segment, consistent with a stream or not, with or without memory for a queue element, the queue is strictly ordered, disjoint, free of empty segments, above rcv_nxt, and has a FIN on its last element at most |
| `Reassembly.ArriveDelivers` | t41ether/lwip/src/core/tcp_in.c:1291-1687 | a segment that agrees with the stream delivers exactly the bytes between the old and the new rcv_nxt, and reports the FIN exactly when rcv_nxt passes it |
| `Reassembly.MergeEdge` | t41ether/lwip/src/core/tcp_in.c:1407-1438 | merging into a queue inside the window leaves the window exactly when the segment, with the FIN it takes over, did |
| `Reassembly.ArriveWindow` | t41ether/lwip/src/core/tcp_in.c:1443-1486 | rcv_nxt + rcv_wnd stays fixed, and the queue stays inside the window, exactly when the segment does not overrun the window as the first queued element |
| `ReceiveQueue.ArriveProgress` | t41ether/lwip/src/core/tcp_in.c:1361-1512 | a segment that holds the next byte is delivered up to its end or to the right edge of the window |
| `ReceiveQueue.PlaceHolds` | t41ether/lwip/src/core/tcp_in.c:1530-1647 | the data of an out-of-sequence segment is on the queue afterwards, up to the right edge |
| `ReceiveQueue.PlaceHas` | t41ether/lwip/src/core/tcp_in.c:1530-1647 | exactly which bytes the queue has after a segment of the stream was put on it |
| `ReceiveQueue.PlaceKeeps` | t41ether/lwip/src/core/tcp_in.c:1597-1623 | queueing a segment loses no queued byte exactly when its predecessor does not reach beyond it |
| `ReceiveQueue.InnerCuts` | t41ether/lwip/src/core/tcp_in.c:1611-1623 | a concrete queue that loses two bytes when one in its middle arrives again |
| `ReceiveQueue.ArriveGets` | t41ether/lwip/src/core/tcp_in.c:1291-1647 | every byte inside the window of a segment of the stream is passed up or queued, in sequence or not, unless it needs a queue element and there is none |
| `ReceiveQueue.ArriveKeeps` | t41ether/lwip/src/core/tcp_in.c:1394-1647 | no byte that was passed up or queued is lost exactly when the segment is not queued behind one that reaches beyond it |
| `ReceiveQueue.ArriveAdds` | t41ether/lwip/src/core/tcp_in.c:1394-1647 | nothing is queued that the segment does not carry |
| `ReceiveQueue.ArriveIgnores` | t41ether/lwip/src/core/tcp_in.c:1263-1672 | a segment without a number in the window, one after the FIN, and one for which there is no queue element, change nothing |
| `ReceiveQueue.PlaceEnd` | t41ether/lwip/src/core/tcp_in.c:1530-1647 | a FIN put on the queue is there, unless a queued segment with the same start and as much data hides it or the window cuts it off; one that was there stays |
| `ReceiveQueue.ArriveEnd` | t41ether/lwip/src/core/tcp_in.c:1545-1570 | the FIN of a segment out of sequence and inside the window is kept exactly when no queued segment with the same start has as much data, or it was queued before |
| `ReceiveQueue.EndDulled` | t41ether/lwip/src/core/tcp_in.c:1545-1570 | queued bytes that come again with the FIN behind them: the FIN is dropped |
| `ReceiveRuns.RunDelivers` | t41ether/lwip/src/core/tcp_in.c:1263-1687 | over any run of segments in any order, lost, duplicated and overlapping, the bytes passed up are the stream up to rcv_nxt, each once |
| `ReceiveRuns.RunWindow` | t41ether/lwip/src/core/tcp.c:753-825 | over any run in which the peer respects the window, the announced right edge never moves left nor passes rcv_nxt + rcv_wnd, and window plus undelivered credit is TCP_WND |
| `ReceiveRuns.StepWindow` | t41ether/lwip/src/core/tcp.c:788-825 | every receive, credit, acknowledgement sent and FIN keeps that window invariant (sections 3.7 of RFC 793 and 4.2.2.16 of RFC 1122) |
| `ReceiveRuns.RunRecent` | t41ether/lwip/src/core/tcp.c:753-812 | as long as the peer sends nothing past the edge announced to it, rcv_nxt stays below that edge by at most TCP_WND, so 32-bit comparisons of the two are exact |
| `ReceiveRuns.AnnounceSteps` | t41ether/lwip/src/core/tcp.c:753-782 | the announced edge stays, or moves by a segment or half the window at least; only past rcv_nxt by less, to a window of 0 |
| `ReceiveRuns.RunOpened` | t41ether/lwip/src/core/tcp.c:753-812 | over any run in the window less than that step is withheld from the peer |
| `ReceiveRuns.RunReopens` | t41ether/lwip/src/core/tcp.c:753-812 | once the application has credited all it got, the next acknowledgement opens at least half the window, and all but less than a segment |
| `ReceiveRuns.CreditEdge` | t41ether/lwip/src/core/tcp.c:797-810 | the 16-bit sum of tcp_recved moves the right edge left exactly when it wraps, but for a wrap to zero in a passive close |
| `ReceiveRuns.CreditExact` | t41ether/lwip/src/core/tcp.c:797-810 | a credit for bytes delivered is added exactly, unless nothing is credited to a zero window in a passive close, which opens the window fully |
| `ReceiveRuns.CreditOpens` | t41ether/lwip/src/core/tcp.c:797-810 | crediting nothing to a zero window in a passive close opens it fully |
| `ReceiveRuns.OverrunWraps` | t41ether/lwip/src/core/tcp_in.c:1530-1531 | an overrun reached from a fresh connection: the first queued segment is not clipped, and closing the gap wraps rcv_wnd to 65533 |
| `TcpReceive.OosInsertSegment` | t41ether/lwip/src/core/tcp_in.c:951-981 | the loop over 32-bit numbers and 16-bit lengths yields the merged segment and list of the specification |
| `TcpReceive.CutAtOoseq` | t41ether/lwip/src/core/tcp_in.c:1407-1438 | removing covered segments from the list and cutting the in-sequence segment is that merge |
| `TcpReceive.Pcb.UpdateRcvAnnWnd` | t41ether/lwip/src/core/tcp.c:753-777 | the window to announce is the specified one; returns how far the announced edge would move |
| `TcpReceive.Pcb.TrimInSequence` | t41ether/lwip/src/core/tcp_in.c:1364-1441 | the in-sequence segment is cut to the window and to the queue as specified |
| `TcpReceive.Pcb.Accept` | t41ether/lwip/src/core/tcp_in.c:1443-1512 | rcv_nxt, rcv_wnd and the data passed up advance as the specified delivery |
| `TcpReceive.Pcb.DrainOoseq` | t41ether/lwip/src/core/tcp_in.c:1475-1511 | the loop passes up the queued segments that became in sequence |
| `TcpReceive.Pcb.TakeFirst` | t41ether/lwip/src/core/tcp_in.c:1477-1510 | one queued segment in sequence is accounted for and unlinked |
| `TcpReceive.Pcb.InSequence` | t41ether/lwip/src/core/tcp_in.c:1363-1524 | the in-sequence branch is the specified step |
| `TcpReceive.Pcb.FindPlace` | t41ether/lwip/src/core/tcp_in.c:1545-1612 | the walk stops at the first element that does not start before the segment |
| `TcpReceive.Pcb.InsertBefore` | t41ether/lwip/src/core/tcp_in.c:1572-1607 | the predecessor is cut and the segment linked as specified |
| `TcpReceive.Pcb.AppendLast` | t41ether/lwip/src/core/tcp_in.c:1608-1645 | a segment behind the whole queue is cut to the receive window and linked |
| `TcpReceive.Pcb.Queue` | t41ether/lwip/src/core/tcp_in.c:1530-1647 | the list with the segment in its place is the specified queue |
| `TcpReceive.Pcb.OutOfSequence` | t41ether/lwip/src/core/tcp_in.c:1525-1648 | the out-of-sequence branch, with or without memory, is the specified step |
| `TcpReceive.Pcb.Receive` | t41ether/lwip/src/core/tcp_in.c:1263-1687 | the data half of tcp_receive refines the specified step: same state, same bytes passed up, same FIN |
| `TcpReceive.Pcb.Process` | t41ether/lwip/src/core/tcp_in.c:879-937 | the states of tcp_process from ESTABLISHED to LAST_ACK, CLOSING among them, take in data as the model does and move to the next state on FIN and on acknowledgement of our FIN |
| `TcpReceive.Pcb.Recved` | t41ether/lwip/src/core/tcp.c:788-825 | tcp_recved refines the specified credit; a window update is sent at once exactly when the announced edge moves right by a quarter of the window, and by a segment or half the window |
| `TcpReceive.Pcb.SendAck` | t41ether/lwip/src/core/tcp_out.c:1216-1218 | sending announces the window |
| `TcpReceive.Pcb.ReportFin` | t41ether/lwip/src/core/tcp_in.c:473-482 | refines the window correction for a reported FIN |
| `TcpReceive.Pcb.Shut` | t41ether/lwip/src/core/tcp.c:329-362 | the state after our FIN was queued |
| `TcpReceive.StateAfter` | t41ether/lwip/src/core/tcp_in.c:879-937 | in terms of the two FINs: a segment changes whether the peer closed and whether our FIN is acknowledged, as it tells, and nothing else |
| `TcpReceive.StateShut` | t41ether/lwip/src/core/tcp.c:329-362 | closing changes whether our FIN was sent, and nothing else |
| `TcpReceive.StateIs` | t41ether/lwip/src/core/tcp_in.c:879-937 | these facts determine the state |
| `TcpReceive.Pcb.DropOoseq` | t41ether/lwip/src/core/tcp.c:1119-1125 | the timer empties the out-of-sequence list and nothing else |
| `ReceiveCode.Perform` | t41ether/lwip/src/core/tcp_in.c:1263-1687 | one event on the control block is the step of the model: positions, queue, window, protocol state, bytes passed up, FIN to report |
| `ReceiveCode.PerformAll` | t41ether/lwip/src/core/tcp_in.c:1263-1687 | over any run of segments lost, repeated, reordered, overlapping or outside the window, of credits, acknowledgements, timeouts and closes, as long as segments start within 127 * 2^24 of rcv_nxt and the announced edge is within 126 * 2^24 of it, the bytes the 32-bit code passes up are the stream up to rcv_nxt, each once |
| `ReceiveCode.FairClose` | t41ether/lwip/src/core/tcp.c:753-812 | with a peer that sends nothing past the edge announced to it, nothing 127 * 2^24 numbers old, and credits for what was delivered, the numbers stay that close all along |
| `ReceiveCode.Teardown` | t41ether/lwip/src/core/tcp_in.c:879-937 | after any run the state of the protocol tells whether the application closed and whether the end of the stream was reached |
| `HeapSpec.AllocKeeps` | t41ether/lwip/src/core/mem.c:620-742 | taking a block, whole or cut, keeps the tiling: blocks meet end to end, aligned, with at least MIN_SIZE_ALIGNED of payload, no two free neighbours |
| `HeapSpec.FreeKeeps` | t41ether/lwip/src/core/mem.c:343-465 | freeing with both neighbours merged keeps the tiling |
| `HeapSpec.TrimKeeps` | t41ether/lwip/src/core/mem.c:478-592 | trimming, into the free neighbour or by a cut, keeps the tiling |
| `HeapSpec.LiveApart` | t41ether/lwip/src/core/mem.c:602-742 | two used blocks do not overlap and lie inside the heap, headers included |
| `HeapSpec.AllocLive` | t41ether/lwip/src/core/mem.c:602-742 | an allocation adds one block, large enough and not so large that it could be cut, and changes no other used block |
| `HeapSpec.FreeLive` | t41ether/lwip/src/core/mem.c:418-465 | freeing takes away exactly the block freed |
| `HeapSpec.TrimLive` | t41ether/lwip/src/core/mem.c:478-592 | trimming shortens the block to the size asked for if a free block follows, and else as far as the rest makes a block; it changes no other |
| `HeapSpec.AllFree` | t41ether/lwip/src/core/mem.c:343-376 | nothing is handed out exactly when the heap is one free block again |
| `HeapSpec.AllocUsed` | t41ether/lwip/src/core/mem.c:686-696 | the used statistic stays the summed size of the used blocks over an allocation |
| `HeapSpec.FreeUsed` | t41ether/lwip/src/core/mem.c:457 | and over a free |
| `HeapSpec.TrimUsed` | t41ether/lwip/src/core/mem.c:531-580 | and over a trim |
| `HeapSpec.FirstFitIs` | t41ether/lwip/src/core/mem.c:641-658 | the reference search finds the lowest free block that is large enough, or none exactly when there is none |
| `HeapSpec.Rounded` | t41ether/lwip/src/core/mem.c:616-631 | the next multiple of 4, but MIN_SIZE_ALIGNED for less, and for requests whose next multiple does not fit 16 bits |
| `HeapSpec.FitsIff` | t41ether/lwip/src/core/mem.c:616-658 | some free block holds the rounded size exactly when some free block holds the bytes asked for |
| `Heap.Heap.constructor` | t41ether/lwip/src/core/mem.c:381-410 | mem_init lays out one free block and the end sentinel |
| `Heap.Heap.PlugHoles` | t41ether/lwip/src/core/mem.c:343-376 | plug_holes joins the block with its free neighbours; next, prev and lfree follow |
| `Heap.Heap.Combine` | t41ether/lwip/src/core/mem.c:356-375 | unlinking one header keeps next and prev inverse to each other |
| `Heap.Heap.Free` | t41ether/lwip/src/core/mem.c:418-465 | mem_free is the specified free; pointers outside the heap are ignored |
| `Heap.Heap.Release` | t41ether/lwip/src/core/mem.c:446-457 | marking a block free lowers the hint and the statistic |
| `Heap.Heap.Malloc` | t41ether/lwip/src/core/mem.c:602-742 | mem_malloc succeeds exactly when some free block has room for the bytes asked for, and takes the lowest that has, though it searches from the hint |
| `Heap.Heap.Search` | t41ether/lwip/src/core/mem.c:641-658 | the scan from lfree finds what the search from the start finds |
| `Heap.Heap.Claim` | t41ether/lwip/src/core/mem.c:657-697 | taking a block rewrites the headers, whole or cut, as specified |
| `Heap.Heap.AdvanceHint` | t41ether/lwip/src/core/mem.c:701-720 | lfree moves up to the lowest free header, or to the end |
| `Heap.Heap.Trim` | t41ether/lwip/src/core/mem.c:478-592 | mem_trim is the specified trim; pointers outside the heap are returned unchanged |
| `Heap.Heap.Lower` | t41ether/lwip/src/core/mem.c:531-557 | the free header behind the block moves down, with its links and the hint |
| `Heap.Heap.CutOff` | t41ether/lwip/src/core/mem.c:558-580 | a used block is cut in two |
| `HeapRuns.RunSafe` | t41ether/lwip/src/core/mem.c:343-742 | after any legal run of malloc, free and trim the blocks tile the heap, no two free blocks touch, and what the client holds is apart from every header and payload |
| `HeapRuns.Perform` | t41ether/lwip/src/core/mem.c:343-742 | an operation on the allocator itself gives the heap and the addresses of the model |
| `HeapRuns.PerformAll` | t41ether/lwip/src/core/mem.c:343-742 | after any legal run on the allocator the headers in ram are linked both ways and tile the heap, lfree is the lowest free header, the used statistic is exact, and what the client holds is apart |
| `HeapRuns.RunRestores` | t41ether/lwip/src/core/mem.c:343-465 | a run that gives everything back restores the heap that mem_init made |
| `SendRuns.RexmitMoves` | t41ether/lwip/src/core/tcp_out.c:1442-1481 | tcp_rexmit keeps the segments on the two lists as a multiset, with their bytes and buffers |
| `SendRuns.RexmitRtoMoves` | t41ether/lwip/src/core/tcp_out.c:1399-1432 | so does tcp_rexmit_rto |
| `SendRuns.OutputMoves` | t41ether/lwip/src/core/tcp_out.c:1091-1179 | so does tcp_output, stopped by the window, by Nagle or by a send that fails at any segment |
| `SendRuns.OutputNext` | t41ether/lwip/src/core/tcp_out.c:1132-1135 | snd_nxt never moves back and stays within what was written |
| `SendRuns.AckKeeps` | t41ether/lwip/src/core/tcp_in.c:1105-1229 | an acknowledgement, old, new or beyond snd_nxt, frees no segment that holds a number not acknowledged, and the accounting stays exact |
| `SendWrite.LongerIs` | t41ether/lwip/src/core/tcp_out.c:668-712 | phases 1 and 2 append exactly the first bytes of the request to the last segment, and count its buffers |
| `SendWrite.PiecesTile` | t41ether/lwip/src/core/tcp_out.c:559-656 | phase 3 cuts the rest into segments within the local mss that follow each other without gap, numbered from snd_lbb |
| `SendWrite.ToppedRoom` | t41ether/lwip/src/core/tcp_out.c:471-545 | the spare room after phases 1 and 2 lies in a buffer the stack owns; a referenced buffer is extended only when nothing went into spare room |
| `SendWrite.WriteTransaction` | t41ether/lwip/src/core/tcp_out.c:368-774 | on success the unsent payload grows by exactly the bytes given, accounts balance and the queue is within TCP_SND_QUEUELEN; on failure at any allocation nothing changes but TF_NAGLEMEMERR |
| `SendWrite.CommitKeeps` | t41ether/lwip/src/core/tcp_out.c:658-743 | a write whose first bytes belong behind the last unsent segment keeps the queue a faithful image of the stream |
| `SendWrite.CommitSpoils` | t41ether/lwip/src/core/tcp_out.c:668-712 | otherwise a first byte that differs from the stream's makes the queue wrong |
| `SendWrite.WriteFaithful` | t41ether/lwip/src/core/tcp_out.c:368-774 | an accepted write leaves a faithful queue, whatever its bytes, exactly when the last unsent segment ends at snd_lbb or takes none of the bytes |
| `SendSpec.LocalMss` | t41ether/lwip/src/core/tcp_out.c:390-392 | the largest segment limit that is no more than the segment size and half the largest window; the segment size if that window is less than 2 |
| `SendAccept.PhasesFill` | t41ether/lwip/src/core/tcp_out.c:444-545 | phases 1 and 2 fill the last unsent segment up to the limit, and use its spare room before they chain a buffer |
| `SendAccept.WriteAccepted` | t41ether/lwip/src/core/tcp_out.c:306-712 | a write succeeds exactly when the connection is open, the data fits the send buffer, the queue has a place and takes the buffers needed, and there is memory for them |
| `SendAccept.WriteSpare` | t41ether/lwip/src/core/tcp_out.c:225-263 | data that fits the spare room goes there; a copied buffer gets room up to the limit, or for TCP_OVERSIZE bytes, exactly when more data may come |
| `SendAccept.RunRefers` | t41ether/lwip/src/core/tcp_out.c:505-545 | over any legal run, as long as the application leaves alone what it gave without a copy, every buffer that refers to memory shows the bytes written |
| `SendClose.FinFaithful` | t41ether/lwip/src/core/tcp_out.c:138-156 | the FIN marks the end of the stream exactly when the last unsent segment, if any, ends at snd_lbb; out of memory only the flag is set |
| `SendClose.FinAccepted` | t41ether/lwip/src/core/tcp_out.c:138-156 | closing fails exactly when the FIN needs a segment of its own and there is no memory for one; otherwise one FIN is queued, no byte added, and nothing else changed |
| `SendSorted.RexmitSorted` | t41ether/lwip/src/core/tcp_out.c:1442-1481 | tcp_rexmit keeps both lists sorted and disjoint |
| `SendSorted.OutputSorted` | t41ether/lwip/src/core/tcp_out.c:1091-1168 | tcp_output keeps both lists sorted, wherever it stops |
| `SendSorted.RexmitRtoSorted` | t41ether/lwip/src/core/tcp_out.c:1407-1420 | tcp_rexmit_rto leaves a sorted list exactly when the last unacknowledged segment starts before the first unsent one |
| `SendSorted.AckSorted` | t41ether/lwip/src/core/tcp_in.c:1149-1228 | acknowledgements keep both lists sorted |
| `SendSorted.CommitSorted` | t41ether/lwip/src/core/tcp_out.c:728-736 | a contiguous write keeps both lists sorted |
| `SendSorted.FinSorted` | t41ether/lwip/src/core/tcp_out.c:138-156 | queueing the FIN at the end of the stream keeps both lists sorted |
| `SendEvents.RunKeeps` | t41ether/lwip/src/core/tcp_out.c:368-1481 | over any run whose writes and close find the unsent list at the end of the stream, every number from lastack on is queued, and every queued segment carries the bytes of the stream at its place |
| `SendEvents.RunSorted` | t41ether/lwip/src/core/tcp_out.c:1091-1481 | both lists stay sorted and disjoint over any run in which the timer finds them one behind the other |
| `SendEvents.Resendable` | t41ether/lwip/src/core/tcp_in.c:1105-1229 | over a run whose writes and close find the unsent list at the end of the stream, every byte not acknowledged is in a queued segment at its place |
| `SendEvents.WriteMisplaced` | t41ether/lwip/src/core/tcp_out.c:444-545 | concrete state after a fast retransmission not sent yet: a write is accepted and goes into the middle of the stream |
| `SendEvents.FinMisplaced` | t41ether/lwip/src/core/tcp_out.c:138-156 | a close in the same state puts the FIN into the middle of the stream |
| `SendEvents.TimerUnsorted` | t41ether/lwip/src/core/tcp_out.c:1407-1420 | the retransmission timer in the same state leaves the list out of order |
| `SendSound.RunSound` | t41ether/lwip/src/core/tcp_out.c:368-1481 | over any interleaving of writes, close, output, retransmissions, timeouts and acknowledgements, wherever the writes put their bytes, snd_buf plus the queued bytes is TCP_SND_BUF, snd_queuelen is the number of queued buffers, and no segment is empty or above the segment limits there were |
| `SendSound.RunSpares` | t41ether/lwip/src/core/tcp_in.c:1105-1229 | after any such run an acknowledgement frees no segment that holds a number not acknowledged |
| `SendSound.ReadyIff` | t41ether/lwip/src/core/tcp_out.c:455-473 | the assertions of tcp_write hold exactly when the last unsent segment with its spare room is within the local segment limit |
| `SendSound.RunReady` | t41ether/lwip/src/core/tcp_out.c:391-473 | after any run a write whose segment limit is not below those of the writes before it meets the assertions |
| `SendSound.LimitFalls` | t41ether/lwip/src/core/tcp_out.c:391-392 | the segment limit falls while snd_wnd_max grows exactly when a window too small to halve gives way to one whose half is below the mss |
| `SendSound.WriteUnready` | t41ether/lwip/src/core/tcp_out.c:391-455 | a legal run after which a write fails the assertion: data written before the peer offered a window, then a small window |
| `SendSound.TwoSentReached` | t41ether/lwip/src/core/tcp_out.c:368-1179 | the state from which these cases start is reached from a fresh connection |
| `EndToEnd.EmitsFirst` | t41ether/lwip/src/core/tcp_out.c:1091-1179 | what tcp_output hands to the network are the first segments of the unsent list, and it leaves the others on it |
| `EndToEnd.WireAgrees` | t41ether/lwip/src/core/tcp_out.c:1091-1179 | every segment sent in a run whose writes and close find the unsent list at the end of the stream carries the bytes, and the end, that the application has written in the end |
| `EndToEnd.EndToEnd` | t41ether/lwip/src/core/tcp_in.c:1263-1687 | if the writes and close of the sender find the unsent list at the end of the stream, then over a network that loses, repeats and reorders what is passed up is a prefix of what the sending application wrote; when the end is reported it is all of it, and the sender has closed |
| `EndToEnd.Misdelivered` | t41ether/lwip/src/core/tcp_out.c:444-545 | otherwise it can fail: a write after a fast retransmission not sent yet, and the receiver passes up the new bytes in place of others |
| `SendAgain.TimerResends` | t41ether/lwip/src/core/tcp_out.c:1399-1432 | every segment that was sent goes back to the unsent list, and the next output begins with the first number not acknowledged exactly when the first segment of the unacknowledged list is before that of the unsent list, or one of them is empty |
| `SendAgain.RexmitResends` | t41ether/lwip/src/core/tcp_out.c:1439-1481 | after a fast retransmission the next output begins with the first number not acknowledged, whatever the order of the lists |
| `SendAgain.RunResends` | t41ether/lwip/src/core/tcp_out.c:1399-1432 | the law of the timer after any run that keeps the lists sorted |
| `SendAgain.TimerSkips` | t41ether/lwip/src/core/tcp_out.c:1399-1432 | two segments sent, the fast retransmission of the first waits, the timer fires: output begins with the second |
| `SendWindow.AckExact` | t41ether/lwip/src/core/tcp_in.c:1149-1228 | from sorted lists a new acknowledgement frees exactly the segments it covers, becomes lastack, and ends a fast retransmission |
| `SendWindow.AckUnsent` | t41ether/lwip/src/core/tcp_in.c:1203-1228 | one of anything that was sent frees exactly the covered segments of a sorted unsent list |
| `SendWindow.AckStale` | t41ether/lwip/src/core/tcp_in.c:1035-1228 | one of what was acknowledged before, or never sent, changes nothing |
| `SendWindow.AckFrame` | t41ether/lwip/src/core/tcp_in.c:1105-1228 | what an acknowledgement leaves alone; the spare room stays as long as the last unsent segment does |
| `SendWindow.OutputSent` | t41ether/lwip/src/core/tcp_out.c:1132-1135 | everything on the unacknowledged list lies below snd_nxt, which tcp_output keeps up to date |
| `SendWindow.OutputWithin` | t41ether/lwip/src/core/tcp_out.c:1091-1092 | tcp_output sends no segment that ends outside the window |
| `SendWindow.OutputStops` | t41ether/lwip/src/core/tcp_out.c:1091-1104 | as long as sends succeed it stops only at the end of the list, at the window, or where Nagle holds the next segment back |
| `SendWindow.OutputNagle` | t41ether/lwip/src/core/tcp_out.c:1091-1104 | a segment inside the window that is left is the last one, not a full one, with others unacknowledged, and without TF_NODELAY, retransmission, earlier failure, FIN, full buffer or full queue |
| `SendWindow.NagleHolds` | t41ether/lwip/src/core/tcp_out.c:1091-1104 | and such a segment is held back, however many are sent before it |
| `SendWindow.OutputFails` | t41ether/lwip/src/core/tcp_out.c:1117-1127 | tcp_output reports a failure exactly when the network takes fewer segments than it would send |
| `SendWindow.OutputCounts` | t41ether/lwip/src/core/tcp_out.c:1132-1135 | snd_nxt is the last of what it was and the ends of the segments sent |
| `SendWindow.OutputFrame` | t41ether/lwip/src/core/tcp_out.c:1091-1179 | what tcp_output leaves alone |
| `SendWindow.Spans` | t41ether/lwip/src/core/tcp_out.c:741-743 | the numbers not acknowledged span no more than TCP_SND_BUF and the queue length |
| `SendWindow.RunNear` | t41ether/lwip/src/core/tcp_out.c:1091-1168 | in any such run all numbers in use stay close to lastack, so that the 32-bit comparisons are exact; no acknowledged segment stays queued, and nothing unacknowledged lies above snd_nxt |
| `TcpSend.WireFits` | t41ether/lwip/src/core/tcp_out.c:1091-1092 | the window test in 32-bit arithmetic holds exactly when the segment ends between lastack and the window |
| `TcpSend.InsertSorted` | t41ether/lwip/src/core/tcp_out.c:1456-1467 | the walk over 32-bit sequence numbers inserts at the specified place; says whether that is the end |
| `TcpSend.FileSegment` | t41ether/lwip/src/core/tcp_out.c:1138-1162 | a sent segment goes behind the unacknowledged list or to its place |
| `TcpSend.FreeCovered` | t41ether/lwip/src/core/tcp_in.c:1149-1177 | the loop frees the covered prefix and counts its bytes and buffers |
| `TcpSend.TopUp` | t41ether/lwip/src/core/tcp_out.c:668-712 | the commit of phases 1 and 2 builds the specified segment |
| `TcpSend.Pcb.constructor` | t41ether/lwip/src/core/tcp.c:1600-1616 | a fresh connection satisfies every invariant |
| `TcpSend.Pcb.Rexmit` | t41ether/lwip/src/core/tcp_out.c:1442-1481 | refines the specified tcp_rexmit |
| `TcpSend.Pcb.RexmitRto` | t41ether/lwip/src/core/tcp_out.c:1399-1420 | refines the specified tcp_rexmit_rto |
| `TcpSend.Pcb.SendOne` | t41ether/lwip/src/core/tcp_out.c:1128-1166 | refines moving one sent segment |
| `TcpSend.Pcb.Output` | t41ether/lwip/src/core/tcp_out.c:1091-1179 | the loop refines the specified tcp_output, and returns a failure exactly when a send failed |
| `TcpSend.Pcb.Freed` | t41ether/lwip/src/core/tcp_in.c:1149-1228 | what an acknowledgement frees of each list |
| `TcpSend.Pcb.Acknowledge` | t41ether/lwip/src/core/tcp_in.c:1105-1229 | refines the specified acknowledgement |
| `TcpSend.Pcb.PbufPrealloc` | t41ether/lwip/src/core/tcp_out.c:232-277 | the oversize heuristic gives the specified spare room |
| `TcpSend.Pcb.Phases` | t41ether/lwip/src/core/tcp_out.c:444-551 | phases 1 and 2 compute the specified split |
| `TcpSend.Pcb.NewSegments` | t41ether/lwip/src/core/tcp_out.c:559-656 | the loop of phase 3 fails exactly when an allocation or the queue limit does, and otherwise makes the specified segments |
| `TcpSend.Pcb.NewList` | t41ether/lwip/src/core/tcp_out.c:658-736 | the new unsent list is the specified one |
| `TcpSend.Pcb.Write` | t41ether/lwip/src/core/tcp_out.c:368-774 | refines the specified tcp_write, result code and state |
| `TcpSend.Pcb.EnqueueFin` | t41ether/lwip/src/core/tcp_out.c:785-881 | refines queueing a FIN segment |
| `TcpSend.Pcb.SendFin` | t41ether/lwip/src/core/tcp_out.c:138-156 | refines the specified tcp_send_fin |
| `TcpSend.Pcb.Prepare` | t41ether/lwip/src/core/tcp_out.c:444-656 | the three phases succeed exactly when every allocation and the queue limit allow it, and then give the specified list, room and queue length |
| `SendCode.Perform` | t41ether/lwip/src/core/tcp_out.c:368-1481 | one event on the control block is the step of the model |
| `SendCode.PerformAll` | t41ether/lwip/src/core/tcp_out.c:368-1481 | over any legal run, wherever its writes put their bytes, as long as the numbers in use are within 2^28 of lastack and acknowledgement numbers within 3 * 2^29, the state of the 32-bit code is that of the model, and the accounting is exact |
| `SendCode.OrderlyClose` | t41ether/lwip/src/core/tcp_out.c:368-1481 | over a run whose writes and close find the end of the stream and whose timer finds the lists in order, the numbers stay that close, and the queue stays a faithful, sorted image of what the application wrote |
| `Timers.UnlinkExact` | t41ether/lwip/src/core/tcp.c:1154-1162 | unlinking behind prev takes no other connection off the list exactly when prev is directly before the one removed |
| `Timers.HopShrinks` | t41ether/lwip/src/core/tcp.c:991-1200 | every step marks a block that was not marked or gets on in the list, whatever a callback does, so that the walk ends |
| `Timers.TickHandles` | t41ether/lwip/src/core/tcp.c:1006-1011 | a tick handles no connection twice and none that carries the new count; one on the list afterwards, and not allocated in the tick, was handled exactly when its 8-bit mark was not the new count |
| `Timers.TickMisses` | t41ether/lwip/src/core/tcp.c:1006-1010 | a connection that carries the new count already is passed over |
| `Timers.WalkTreats` | t41ether/lwip/src/core/tcp.c:1130-1194 | of the connections it handles a tick removes those, and calls the application once for those, whose fate says so, and no others |
| `Timers.WalkTraced` | t41ether/lwip/src/core/tcp.c:980-1201 | a tick takes off the list no connection but those it removes, those its callbacks take off, and those it loses |
| `Timers.LosesNone` | t41ether/lwip/src/core/tcp.c:1006-1010 | a tick loses no connection exactly when none is removed with one that was passed over directly before it |
| `Timers.RestartLoses` | t41ether/lwip/src/core/tcp.c:1006-1162 | when the walk starts again and the first connection it does not pass over is removed, all those before it are lost |
| `Timers.RemovalLoses` | t41ether/lwip/src/core/tcp.c:1006-1194 | the tick evaluated on three connections, the first of which opens a fourth when it is polled: removing the second loses the first and the fourth |
| `Timers.QuietTick` | t41ether/lwip/src/core/tcp.c:980-1201 | in a tick without list changes, started when no connection carries the new count, exactly those removed leave the list and none is lost |
| `Timers.SparingTick` | t41ether/lwip/src/core/tcp.c:1245-1289 | a tick that removes none loses none whatever its callbacks do; if they do not change the list it stays as it was |
| `Timers.Tcp.SlowTmr` | t41ether/lwip/src/core/tcp.c:980-1201 | refines the walk: list, marks, connections handled in order, connections removed, and those whose application was called |
| `Timers.Tcp.FastTmr` | t41ether/lwip/src/core/tcp.c:1245-1289 | refines the same walk without removals |
| `Checksum.Chksum1` | t41ether/lwip/src/core/inet_chksum.c:79-114 | version 1 returns the one's complement sum of the data, 0 only for all-zero data |
| `Checksum.Chksum2` | t41ether/lwip/src/core/inet_chksum.c:132-173 | version 2 returns the same at every address, with aligned loads only |
| `Checksum.Chksum3` | t41ether/lwip/src/core/inet_chksum.c:188-255 | version 3 returns the same at every address and for every length |
| `Checksum.Thumb2` | t41ether/lwip/src/arch/checksum.c:30-124 | the Thumb-2 routine returns the same at every address and for every length |
| `Checksum.AddCarry` | t41ether/lwip/src/core/inet_chksum.c:214-222 | 32-bit addition with the carry added back has the same one's complement sum |
| `Checksum.Finish` | t41ether/lwip/src/core/inet_chksum.c:245-252 | two folds, and a swap for an odd address, give the sum of the data |
| `Checksum.SumOdd` | t41ether/lwip/src/core/inet_chksum.c:576-583 | data behind a part of odd length counts 256-fold modulo 0xFFFF |
| `ChainChecksum.ChainSum` | t41ether/lwip/src/core/inet_chksum.c:259-294 | the loop over a chain, with swaps after odd buffers, sums the flat bytes on top of a start value |
| `ChainChecksum.InetChksum` | t41ether/lwip/src/core/inet_chksum.c:554-558 | inet_chksum is the complement of the sum |
| `ChainChecksum.ChksumPbuf` | t41ether/lwip/src/core/inet_chksum.c:567-589 | the checksum of a chain is that of its flat bytes, however they are cut |
| `ChainChecksum.ChksumPseudo` | t41ether/lwip/src/core/inet_chksum.c:259-327 | with the pseudo-header of section 3.1 of RFC 793 in front |
| `ChainChecksum.Verifies` | t41ether/lwip/src/core/inet_chksum.c:554-558 | a checksum stored in a zero field at an even offset makes the checksum of the whole 0 |
| `ChainChecksum.VerifiesPseudo` | t41ether/lwip/src/core/inet_chksum.c:309-327 | the same with the pseudo-header |
| `ChainChecksum.Detects` | t41ether/lwip/src/core/inet_chksum.c:554-589 | the checksum tells of every change of one byte |
| `ChainChecksum.DetectsHeader` | t41ether/lwip/src/core/inet_chksum.c:309-327 | with the pseudo-header, of every change of one byte of an address or of the protocol |
| `ChainChecksum.DetectsLength` | t41ether/lwip/src/core/inet_chksum.c:309-327 | and of every change of the length but between 0 and 0xFFFF |
| `PbufRefs.DropCounted` | t41ether/lwip/src/core/pbuf.c:714-791 | giving up a reference leaves every count equal to owners plus predecessors, and no freed buffer pointed to |
| `PbufRefs.DropRun` | t41ether/lwip/src/core/pbuf.c:714-791 | what is freed is the longest leading run of buffers with count 1; nothing else changes but the count behind it |
| `PbufRefs.JoinedTotals` | t41ether/lwip/src/core/pbuf.c:839-862 | joining keeps the tot_len invariant exactly when no other buffer shares a part of the first chain, or there is nothing to add |
| `PbufRefs.JoinedChain` | t41ether/lwip/src/core/pbuf.c:839-862 | two chains become one, the second behind the first |
| `PbufRefs.SharedSpoils` | t41ether/lwip/src/core/pbuf.c:839-862 | a concrete chain whose tail another buffer shares: joining leaves the total of that buffer too small |
| `PbufRefs.CutTotals` | t41ether/lwip/src/core/pbuf.c:903-913 | taking the rest off a buffer keeps the tot_len invariant exactly when nothing is in front of the buffer, or the rest is empty |
| `PbufRefs.CutChain` | t41ether/lwip/src/core/pbuf.c:903-913 | the buffer is alone, and the rest in one chain |
| `PbufRefs.CutSpoils` | t41ether/lwip/src/core/pbuf.c:903-913 | a concrete chain cut in its middle: the total of the first buffer is too large |
| `PbufRefs.DechainDangles` | t41ether/lwip/src/core/pbuf.c:898-927 | a chain of a multiple of 256 buffers with exact totals is freed altogether while the 8-bit count says none |
| `PbufRefs.Pbufs.Alloc` | t41ether/lwip/src/core/pbuf.c:352-405 | a new buffer has one owner; counts stay exact |
| `PbufRefs.Pbufs.Release` | t41ether/lwip/src/core/pbuf.c:733-790 | the loop of pbuf_free frees the specified run and returns its length in 8 bits |
| `PbufRefs.Pbufs.Free` | t41ether/lwip/src/core/pbuf.c:714-791 | an owner's reference is given up; counts stay exact |
| `PbufRefs.Pbufs.Ref` | t41ether/lwip/src/core/pbuf.c:819-827 | one owner more; counts stay exact |
| `PbufRefs.Pbufs.Cat` | t41ether/lwip/src/core/pbuf.c:839-862 | the walk joins the chains; the caller's reference becomes the last buffer's |
| `PbufRefs.Pbufs.ChainUp` | t41ether/lwip/src/core/pbuf.c:881-888 | the caller keeps its reference |
| `PbufRefs.Pbufs.Dechain` | t41ether/lwip/src/core/pbuf.c:898-927 | the tail gets its total, loses a reference, and p is alone; what is returned is freed exactly when a non-zero multiple of 256 buffers was freed |
| `PbufRuns.RunCounted` | t41ether/lwip/src/core/pbuf.c:714-927 | after any legal run of alloc, ref, cat, chain, dechain and free each count is owners plus predecessors, and no pointer leads to a freed buffer |
| `PbufRuns.RunTotals` | t41ether/lwip/src/core/pbuf.c:714-927 | if nothing shares a chain that is extended and nothing precedes a buffer that is cut off, such a run keeps the tot_len invariant |
| `PbufRuns.RunFrees` | t41ether/lwip/src/core/pbuf.c:714-791 | such a run that leaves no owner, and no empty buffer, has freed everything |
| `PbufRuns.PerformAll` | t41ether/lwip/src/core/pbuf.c:714-927 | the operations themselves follow the run of the model |
| `PbufData.Skip` | t41ether/lwip/src/core/pbuf.c:1104-1119 | the buffer and offset at which a byte of the chain lies, or that it lies behind the end |
| `PbufData.TryGetAt` | t41ether/lwip/src/core/pbuf.c:1316-1327 | the byte at the offset of the flat bytes, or -1 |
| `PbufData.CopyPartial` | t41ether/lwip/src/core/pbuf.c:1014-1051 | a slice of the flat bytes, cut at their end |
| `PbufData.Memcmp` | t41ether/lwip/src/core/pbuf.c:1361-1389 | 0 exactly when the bytes agree, the first difference otherwise, 0xFFFF when the chain is too short |
| `PbufData.Memfind` | t41ether/lwip/src/core/pbuf.c:1403-1417 | the least offset at which the bytes occur, or 0xFFFF exactly when there is none |
| `PbufData.Packet.TakeFrom` | t41ether/lwip/src/core/pbuf.c:1160-1176 | the loop writes the data into the flat bytes and keeps the shape of the chain |
| `PbufData.Packet.Take` | t41ether/lwip/src/core/pbuf.c:1148-1179 | succeeds exactly when the data fits, and writes it at the start |
| `PbufData.Packet.TakeAt` | t41ether/lwip/src/core/pbuf.c:1192-1213 | succeeds exactly when offset and data lie in the chain, writes the data there and nothing else; otherwise changes nothing |
| `PbufData.TakeThenCopy` | t41ether/lwip/src/core/pbuf.c:1192-1213 | what was written is read back and all other bytes are as before |
| `PbufData.Packet.CopyFrom` | t41ether/lwip/src/core/pbuf.c:947-1000 | the two-cursor loop ends; success means the head of the target equals the source; without empty buffers it succeeds exactly when the source fits |
| `Memp.Sanity` | t41ether/lwip/src/core/memp.c:100-116 | the two-pointer loop ends on every list and returns 1 exactly when the list reaches NULL |
| `Memp.Meets` | t41ether/lwip/src/core/memp.c:105-112 | slow and fast traversal meet on every list that does not end |
| `Memp.CycleNeverEnds` | t41ether/lwip/src/core/memp.c:108-110 | pointers that met are on a cycle |
| `Memp.PushEnds` | t41ether/lwip/src/core/memp.c:434-438 | an element put on the free list leaves a list that ends exactly when it was not on it |
| `Memp.Mempool.constructor` | t41ether/lwip/src/core/memp.c:229-262 | the free list holds every element once |
| `Memp.Mempool.Malloc` | t41ether/lwip/src/core/memp.c:292-348 | takes the head, or returns NULL exactly when the list is empty |
| `Memp.Mempool.Free` | t41ether/lwip/src/core/memp.c:406-443 | puts the element in front; the check fails exactly for an element that was free already |
| `Sfifo.MaskedDistance` | t41ether/lwip-ftpd-sd/src/lwip_ftpd-sd.cpp:239-242 | the masked difference of the positions is the true count, also when one rests at size |
| `Sfifo.InitEnds` | t41ether/lwip-ftpd-sd/src/lwip_ftpd-sd.cpp:249-280 | the search for a power of 2 ends exactly when less than 2^30 bytes are asked for |
| `Sfifo.InitLoops` | t41ether/lwip-ftpd-sd/src/lwip_ftpd-sd.cpp:249-280 | for 2^30 bytes no size tried is large enough |
| `Sfifo.Fifo.constructor` | t41ether/lwip-ftpd-sd/src/lwip_ftpd-sd.cpp:249-280 | the least power of 2 greater than the room asked for |
| `Sfifo.Fifo.Used` | t41ether/lwip-ftpd-sd/src/lwip_ftpd-sd.cpp:241 | sfifo_used is the number of bytes held |
| `Sfifo.Fifo.Write` | t41ether/lwip-ftpd-sd/src/lwip_ftpd-sd.cpp:290-319 | takes as many bytes as there is room for and appends them to what is held |
| `Sfifo.Fifo.SendData` | t41ether/lwip-ftpd-sd/src/lwip_ftpd-sd.cpp:369-404 | what TCP accepted, followed by what is still held, is what was held; how much it is when tcp_write accepts both parts, the first only, or none |
| `DnsNames.EncodeName` | t41ether/lwip/src/core/dns.c:775-792 | the loops over the host name write its labels, each behind its length, and the root |
| `DnsNames.CompareName` | t41ether/lwip/src/core/dns.c:650-688 | the offset behind the name exactly when its labels spell the query, but for what stands at the separators and behind the name |
| `DnsNames.EncodesIff` | t41ether/lwip/src/core/dns.c:650-688 | the packet has the encoding of a name of labels of 1 to 63 bytes exactly when it spells the name with separators at its dots |
| `DnsNames.EncodingAccepted` | t41ether/lwip/src/core/dns.c:650-688 | so such a name is accepted where its encoding is, up to its end |
| `DnsNames.DotUnchecked` | t41ether/lwip/src/core/dns.c:650-688 | two labels of a letter are accepted for a name of three letters |
| `DnsNames.CompareLabel` | t41ether/lwip/src/core/dns.c:668-680 | one label is accepted exactly when its bytes are those of the query |
| `DnsNames.SkipName` | t41ether/lwip/src/core/dns.c:697-726 | returns the end of the name of section 4.1.4 of RFC 1035, or 0xFFFF when the packet ends before, exactly when the name is not the root alone; then the end of what follows the root |
| `DnsNames.EncodeEnd` | t41ether/lwip/src/core/dns.c:697-726 | the end of an encoded name is where the encoding ends |
| `Dns.TurnedLeft` | t41ether/lwip/src/core/dns.c:1034-1065 | each tick brings an open query one tick nearer to its end, over retries and servers |
| `Dns.ExpiresLast` | t41ether/lwip/src/core/dns.c:1034-1065 | a query ends with its last tick, 7 ticks for every server, and before only for want of a server to ask |
| `Dns.LeftTells` | t41ether/lwip/src/core/dns.c:1034-1065 | the number of ticks left determines server, retries and timer |
| `Dns.FlushedWaiting` | t41ether/lwip/src/core/dns.c:943-949 | calling back for an entry splits the waiting callbacks into called and still waiting |
| `Dns.SocketClose` | t41ether/lwip/src/core/dns.c:957-975 | the socket of a query that ends is closed exactly when no other open query uses it |
| `Dns.Resolver.constructor` | t41ether/lwip/src/core/dns.c:317-354 | an empty table satisfies the invariants |
| `Dns.Resolver.CallFound` | t41ether/lwip/src/core/dns.c:922-977 | every callback waiting for the entry is called once, with the address or without, its slot freed, the socket closed if unused |
| `Dns.Resolver.Send` | t41ether/lwip/src/core/dns.c:734-843 | a query without a server ends and is called back; otherwise it is sent to its server |
| `Dns.Resolver.CheckQuery` | t41ether/lwip/src/core/dns.c:1034-1065 | an open query ends exactly when its timer runs out and there is no server to ask; else its timers advance, and it is sent when its timer has run out, to the same or the next server |
| `Dns.Resolver.CheckEntry` | t41ether/lwip/src/core/dns.c:1010-1082 | the same for any entry: answers grow older and are dropped when their time is over; exactly the callbacks whose slots are freed are called |
| `Dns.Resolver.Tick` | t41ether/lwip/src/core/dns.c:1087-1095 | the same for the whole table, with the queries sent, in order; no callback gets an address |
| `Dns.Resolver.Elapse` | t41ether/lwip/src/core/dns.c:1087-1095 | with all servers and no message, n ticks end exactly the queries that had no more than n ticks left, and drop exactly the answers whose time was over |
| `Dns.Resolver.Run` | t41ether/lwip/src/core/dns.c:922-1445 | in any run of lookups, messages, ticks and changes of the servers every callback handed over at least 7 times DNS_MAX_SERVERS ticks before the end has been called, and none more often than it was handed over |
| `Dns.AllCalled` | t41ether/lwip/src/core/dns.c:1034-1065 | what was handed over so many ticks ago does not wait any more, since a waiting callback is younger than the ticks its query has used |
| `Dns.AgedFlows` | t41ether/lwip/src/core/dns.c:943-949 | of the callbacks in old slots each one is called or still in its slot |
| `Dns.AmpleIf` | t41ether/lwip/src/core/dns.c:980-999 | one transaction number more than there are entries suffices for any table |
| `Dns.Resolver.CorrectResponse` | t41ether/lwip/src/core/dns.c:1100-1128 | an answer ends the query, gives its callbacks the address, and is kept for its time to live, at most DNS_MAX_TTL, unless that is 0 |
| `Dns.Resolver.Recv` | t41ether/lwip/src/core/dns.c:1149-1305 | a message ends the one open query with its number and calls exactly its callbacks, with the address and the entry kept if it is an answer, without if it is an error; or nothing changes |
| `Dns.Resolver.CreateTxid` | t41ether/lwip/src/core/dns.c:980-999 | the number drawn is not in use |
| `Dns.Resolver.AllocPcb` | t41ether/lwip/src/core/dns.c:880-911 | a new socket exactly when one can be opened and there is room, else an open one; none exactly when none can be opened and none is open |
| `Dns.Resolver.FindEntry` | t41ether/lwip/src/core/dns.c:1356-1386 | an unused entry, or else the oldest answer; none exactly when no entry can be used |
| `Dns.Resolver.Enqueue` | t41ether/lwip/src/core/dns.c:1316-1445 | the callback joins an open query for the name, or a query with all its time is begun and it waits for that, or is called at once if there is no server; open queries are untouched; ERR_MEM exactly when no slot is free, or no query is open for the name and no entry or socket can be had; then nothing is queued or called |

## Left out

- Everything that only dispatches, configures or counts: netif, raw, init, sys, stats, IP input and output, routing, the sockets and netconn interfaces.
- Hardware access of the port (MDIO, interrupts, DMA) and the FTP command handlers.
- The opening handshake, listening, RST and TIME-WAIT handling, keepalive, the persist timer, round-trip estimation and congestion control: segments and windows enter as parameters.
- TCP options, urgent data and the PSH flag, which change neither the lists nor the data.
- pbuf_realloc, pbuf_header, pbuf_coalesce and allocation of pool chains: they would add easy members only.
- inet_cksum_pseudo_partial_base and checksum on copy, which the configuration does not use.
- The TIME-WAIT list of the slow timer, a plain filter.
- dns_lookup, the local host list, mDNS and IPv6 queries.
- TcpReceive.Pcb.Receive: segments that start 127 * 2^24 or more from rcv_nxt, and an edge announced 126 * 2^24 or more away, are excluded, since 32-bit comparisons fail there; `ReceiveCode.FairClose` says when this does not happen.
- TcpReceive.Pcb.Process: as TcpReceive.Pcb.Receive; the connection leaves the model with state TIME_WAIT.
- TcpReceive.Pcb.Recved: an edge announced 126 * 2^24 or more away is excluded.
- ReceiveCode.Perform: as TcpReceive.Pcb.Receive.
- ReceiveCode.PerformAll: as TcpReceive.Pcb.Receive.
- Heap.Heap.Malloc: requests of 65533 to 65535 bytes round to 0 in 16 bits and get the least block, as in the code; the caller's view of their size is not modelled. Headers are cells indexed by offset, not bytes that a payload could overwrite.
- TcpSend.Pcb.Output: begins at the loop; the empty acknowledgement for TF_ACK_NOW and the route lookup before it are not modelled.
- TcpSend.Pcb.Write: requires the assertions that tcp_write itself makes about the last unsent segment; `SendSound.ReadyIff` and `SendSound.RunReady` say when they hold, `SendSound.WriteUnready` when not.
- TcpSend.Pcb.Freed: acknowledgement numbers 3 * 2^29 or more from lastack are excluded.
- TcpSend.Pcb.EnqueueFin: a queue length of 0xFFFF, whose successor does not fit 16 bits, is excluded; the limit is 16.
- TcpSend.Pcb.SendFin: as TcpSend.Pcb.EnqueueFin.
- SendCode.Perform: numbers 2^28 or more from lastack are excluded; `SendCode.OrderlyClose` says when they do not occur.
- SendCode.PerformAll: as SendCode.Perform.
- EndToEnd.EndToEnd: speaks of senders whose writes and close find the unsent list at the end of the stream; for others it is false.
- TcpSend.Pcb.Acknowledge: acknowledgement numbers 3 * 2^29 or more from lastack are excluded; the order of the acknowledgement counters and of the callbacks is not modelled.
- Timers.Tcp.SlowTmr: what a connection has come to (removed, polled, neither) is a parameter; its timers and retransmissions are not modelled here.
- PbufRefs.Pbufs.Ref: counts and total lengths are unbounded numbers; their 16-bit overflow is not modelled.
- PbufRefs.Pbufs.ChainUp: as PbufRefs.Pbufs.Cat.
- PbufRefs.Pbufs.Cat: takes the first chain to be finite, and not to contain the second buffer, as the source demands of its callers.
- PbufData.Packet.CopyFrom: for chains with empty buffers only the meaning of success is stated, not when the queue checks of the code refuse them.
- PbufData.Memfind: chains of 0xFFFF bytes are excluded, since 0xFFFF is the result for not found.
- Checksum.Chksum1: data longer than 0x20000 bytes, for which the 32-bit accumulator overflows, is excluded, as for Checksum.Chksum2.
- DnsNames.CompareName: reading behind the terminator of the query is taken as a difference.
- Sfifo.Fifo.constructor: failure of malloc is not modelled.
- Dns.Resolver.Recv: the parsing that makes a message ignored, refused or answered is a parameter; names in messages are in DnsNames.
- Dns.Resolver.CheckEntry: the branch for a new entry runs only inside dns_enqueue and is modelled there.
- Dns.Resolver.Run: the numbers drawn for a lookup are taken to suffice for any table; `Dns.AmpleIf` says when they do.
