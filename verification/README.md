# Verification of the firmware's algorithms and protocols

This project models the parts of the OpenRISC firmware that are algorithm or protocol over
ordinary memory, and proves what they do:

- the two-pool first-fit heap (`HeapBlocks.dfy`, `Heap4.dfy`);
- the CoreMark linked list: bottom-up mergesort, list surgery, and the benchmark run over it
  (`RunOrder.dfy`, `CoreList.dfy`, `MergeSort.dfy`, `BenchList.dfy`);
- the TCP socket machine (`TcpModel.dfy`, `TcpPorts.dfy`, `TcpStack.dfy`, `TcpRuns.dfy`, `TcpQuiet.dfy`,
  `TcpFlags.dfy`), and what it does in the terms of the protocol: for one segment (`TcpSegments.dfy`), for
  whole exchanges with a peer (`TcpExchange.dfy`), for the background pass (`TcpTurns.dfy`) and for the
  calls of applications (`TcpCalls.dfy`);
- streaming SHA-1 against FIPS 180-4 (`Sha1Spec.dfy`, `Sha1.dfy`);
- CRC-32 and the Ethernet frame check (`Crc32.dfy`, `Nic.dfy`);
- the incremental one's-complement checksum and the packets made with it (`IpChecksum.dfy`, `TcpChecksum.dfy`);
- Base64, the HTTP file sender, and the real-time clock (`Base64.dfy`, `Http.dfy`, `Rtc.dfy`).

`dafny verify dfyconfig.toml` checks everything.

Code that changes memory is modelled by methods with loops, on classes, arrays and linked
nodes. Each is proved equal to a function on values, and the theorems over whole runs are
lemmas about those functions. What the functions say is also stated in numbers, flags and
byte offsets, independently of how they are written. The target is big-endian; words have the source's width and
every wrap-around is written out.

The driver's invariant of the TCP rows is stop and wait (a socket that awaits an
acknowledgement is not ready to send and is in a state that deals with one; a socket that is
to resend is ready and awaits nothing), bounded retries, timeouts in 300..3000, one reader of
the receive slot, and local ports of their own for the clients (`TcpRuns.Inv`). The class
`TcpStack.Tcp` carries it as `Valid`, which every call of the driver's interface keeps; sending
data keeps it exactly in the states that deal with acknowledgements.

The width of `time_t` is that of the C library and an assumption of the clock rows,
`Rtc.Width`: a signed word of 32 bits (newlib 2.3.0 for or1k, which the repository's
README.md:24 names) or of 64 bits. Signed overflow is taken to wrap.

Ghost parameters of methods (a list as a sequence of nodes, the bytes summed so far) exist
for the proofs only. What the hardware answers is a parameter: whether the NIC can send,
what ARP has resolved, the clock, whether an I2C transfer succeeded, what the file reader
returns; so is what memory held where the source does not initialise a record.

## Findings

- Heap: the test of the request against the free-bytes counter never turns away a request
  that some free block fits (`Heap4.EarlyTest`).
- List sort: a comment inside `core_list_mergesort` says that the empty list is allowed for;
  the code has written through the NULL tail by then. The model requires a non-empty list.
- CoreMark list benchmark: the comment "the list is back to original state" is right for the
  working bytes exactly when each equalled its backup byte at the start. For the order, with
  different indices, it is right exactly when they were ascending (`BenchList.core_bench_list`);
  with equal indices it can fail although they ascend: 1, 1, 2 with one fruitless search comes
  back with the first two nodes exchanged (`BenchList.EqualIndicesExchanged`).
- TCP: data may be sent on connected sockets only. Sending keeps the driver's invariant if
  and only if the socket is in a state that deals with acknowledgements
  (`TcpRuns.SendingNeedsConnection`, `TcpStack.Tcp.tcp_socket_tx_packet`);
  `tcp_setup_socket_tx` does not test that. Right after initialisation a closed socket is
  ready, and sending on it breaks the invariant (`TcpRuns.SendingWhenClosed`).
- TCP: the response flags of `process_tcp` are set to none once per pass, not per socket. A
  pass differs from one that sets them per socket if and only if some socket times out in a
  state that sets no flags, the last socket before it that chose flags chose some, and the NIC
  was able up to there (`TcpFlags.FlagsGoOutElsewhere`). One such pass closes a connection in FIN_WAIT_1 and sends
  its peer the SYN of another socket (`TcpFlags.SynToOldPeer`).
- TCP: for the same reason unacknowledged data can be lost. When it times out with retries left, the
  application is asked to send it again if and only if no flags are left from the sockets before it in the
  pass, or the NIC cannot take them; else these flags are sent, and the socket counts as ready for new
  data (`TcpTurns.DataIsSentAgain`).
- TCP: reading or dumping is safe exactly while the active socket's number is in the table
  (`TcpRuns.EveryRunReads`). Once a packet has been read and taken from the slot the number is
  TCP_INVALID_SOCKET, and another call would index entry 0xfe of a table of ten
  (`TcpRuns.NothingToReadAfterPacket`).
- IP: the header check agrees with the all-ones test of RFC 1071 but for the checksum field
  0xFFFF, which the program never accepts (`IpChecksum.AgreesWithAllOnes`, with a header in
  `IpChecksum.MinusZeroRejected`).
- HTTP: the response to an empty file never ends: each acknowledged packet without data is
  followed by another one (`Http.EndsUnlessEmpty`).
- Clock: because the month comparison is strict, the first second of every month but January
  is stored as a day after the end of the month before (2000-02-01 as 32 January). Exactly
  then the stored date is not a date (`Rtc.Ds1338z.ds1338z_setUnixTime`); reading back still
  gives the same second.
- Clock: from 2000 up to 2099 a second survives setting and reading if and only if the seconds
  since 2000 are below half the range of `time_t` (`Rtc.Ds1338z.SetAndGetMoment`). With 64 bits
  that is always so; with 32 bits it ends at 2068-01-19, when the seconds come out negative
  (`Rtc.FirstLostMoment`). Of the words that stand for an earlier time, just the first second
  of 1999-12-31 survives (`Rtc.Ds1338z.SetAndGet`).

## Model

| member | source | states |
|---|---|---|
| HeapBlocks.MallocKeepsInv | application/libbase/heap_4.c:163-310 | malloc keeps the pool invariant: allocated and free blocks tile the region without gap or overlap, sizes are multiples of 4, no two free blocks touch, the free-bytes counter is the sum of the free sizes |
| HeapBlocks.MallocServesLowestFit | application/libbase/heap_4.c:180-274 | for 0 < size < 2^31, NULL exactly when no single free block fits the rounded size, and then nothing changes; else the lowest-addressed block that fits |
| HeapBlocks.MallocInBytes | application/libbase/heap_4.c:180-225 | in bytes: for 0 < n < 2^31, NULL exactly when every free block is smaller than n + 8; else the pointer is 8 behind the address of the lowest free block that is not |
| HeapBlocks.SplitInBytes | application/libbase/heap_4.c:189-258 | that block is cut at the first multiple of 4 from n + 8 on if more than 16 bytes are left, else it is handed out whole; what is handed out has a size divisible by 4, from n + 8 to less than n + 8 + 4 + 16 + 1 |
| HeapBlocks.MallocAddsOneLiveBlock | application/libbase/heap_4.c:211-276 | every live block stays as it is and one is added |
| HeapBlocks.MallocWastesLittle | application/libbase/heap_4.c:237-258 | the block handed out is at least the rounded request, and at most two headers larger |
| HeapBlocks.MallocIsDisjoint | application/libbase/heap_4.c:225-276 | the block handed out holds the requested bytes and overlaps no live block |
| HeapBlocks.FreeKeepsInv | application/libbase/heap_4.c:313-358 | freeing NULL or a live pointer keeps the pool invariant |
| HeapBlocks.FreeIsFreeAt | application/libbase/heap_4.c:313-358 | a pointer names at most one live block, so freeing it is determined |
| HeapBlocks.FreeRemovesOneLiveBlock | application/libbase/heap_4.c:331-346 | free removes that one live block and keeps all the others |
| HeapBlocks.MallocThenFree | application/libbase/heap_4.c:225-358 | a malloc and then its free restore every block, with or without a split; only the minimum-ever counter remembers |
| HeapBlocks.NothingLive | application/libbase/heap_4.c:387-432 | with nothing allocated, the pool is the one initial free block |
| HeapBlocks.FreeingAllRestoresPool | application/libbase/heap_4.c:313-358 | freeing every outstanding pointer once, in any order, is always possible and gives back the initial pool |
| HeapBlocks.RunKeepsInv | application/libbase/heap_4.c:163-358 | over every run of mallocs and frees the invariant holds and the minimum-ever counter is the running minimum of the free bytes |
| HeapBlocks.RunFromInit | application/libbase/heap_4.c:387-432 | from initialisation on, the counter is exactly the low-water mark, and allocated plus free bytes are the whole region |
| Heap4.LinkedIsList | application/libbase/heap_4.c:435-493 | the header writes of an insertion leave a well-formed, NULL-terminated chain that holds the list with the block joined to whichever neighbours it touches |
| Heap4.InsertIsRelease | application/libbase/heap_4.c:447-492 | the address tests of the insertion join exactly the neighbouring free blocks of the tiling |
| Heap4.FirstFitInList | application/libbase/heap_4.c:215-221 | the first adequate entry of the free list is the first adequate free block of the pool |
| Heap4.FreeBlockApart | application/libbase/heap_4.c:237-258 | no two free blocks touch, so the list order puts each free block between neighbours that it does not touch |
| Heap4.RemainderStaysAlone | application/libbase/heap_4.c:237-258 | hence the remainder of a split, put back through the coalescing routine, is not joined to anything |
| Heap4.EarlyTest | application/libbase/heap_4.c:211 | the early test against the free bytes rejects only what no block fits |
| Heap4.HeapPool.constructor | application/libbase/mem_managment.c:69-76 | an entry of the pool table represents a pool that was never used |
| Heap4.HeapPool.prvHeapInit | application/libbase/heap_4.c:387-432 | builds one free block from the aligned base to the end marker, and writes no header outside the region |
| Heap4.HeapPool.RegionInBytes | application/libbase/heap_4.c:391-411 | the blocks lie between the first multiple of 4 from the base on and the last one with 8 bytes behind it for the end marker |
| Heap4.HeapPool.FindInsertPoint | application/libbase/heap_4.c:440-445 | the search ends at the list entry just below the block |
| Heap4.HeapPool.JoinBehind | application/libbase/heap_4.c:447-492 | the header writes: joined behind, joined before, or linked |
| Heap4.HeapPool.prvInsertBlockIntoFreeList | application/libbase/heap_4.c:435-493 | the free list becomes the address-ordered list with the block, joined to the neighbours that it touches |
| Heap4.HeapPool.FindFirstFit | application/libbase/heap_4.c:213-221 | finds the first list entry of adequate size and the entry before it, or the end marker |
| Heap4.HeapPool.UnlinkAndSplit | application/libbase/heap_4.c:231-258 | takes the block off the list and gives the remainder back when it is larger than two headers |
| Heap4.HeapPool.pvPortMalloc | application/libbase/heap_4.c:163-310 | the pointer code changes the pool exactly as Malloc on the tiling does, returns its pointer, and writes no header outside the region |
| Heap4.HeapPool.vPortFree | application/libbase/heap_4.c:313-358 | the pointer code changes the pool exactly as Free on the tiling does, and writes no header outside the region |
| Heap4.HeapTable.pvPortMalloc | application/libbase/heap_4.c:163-310 | malloc on one pool leaves the other pool's state as it was |
| Heap4.HeapTable.vPortFree | application/libbase/heap_4.c:313-358 | so does free |
| CoreList.CalcFunc | application/coremark/core_list_join.c:66-103 | a cached item gives its low seven bits and stays; one of the operation types from 2 on gives its own low seven bits and gets them cached; the backup byte is kept in any case |
| CoreList.Compare | application/coremark/core_list_join.c:110-129 | settles both items, changes no settled one, keeps backup bytes, and its sign is that of the difference of the keys |
| MergeSort.CompareNodes | application/coremark/core_list_join.c:498 | a comparison in a merge settles its two nodes and disturbs no key that was settled before |
| MergeSort.TakeNext | application/coremark/core_list_join.c:487-508 | the next node comes from the run whose head has the smaller key, the left one on equal keys |
| MergeSort.MergeRuns | application/coremark/core_list_join.c:481-517 | two sorted runs become one sorted run of the same nodes behind what was merged before, and all their items are settled |
| MergeSort.StepAlong | application/coremark/core_list_join.c:471-479 | the second run of a pair is found one run length on, or at the end |
| MergeSort.Pass | application/coremark/core_list_join.c:463-523 | a pass turns runs of one length into runs of twice the length over the same nodes, and counts at most one merge exactly when one pair was left |
| MergeSort.PlainKeys | application/coremark/core_list_join.c:66-119 | items that run no benchmark are ordered by their own low seven bits |
| MergeSort.core_list_mergesort | application/coremark/core_list_join.c:454-535 | on every non-empty list it ends with the same nodes, stably sorted by the comparator's keys; with two or more nodes every item has been through the comparator, odd leftover runs included; backup bytes are kept; by cmp_complex, items that were cached or run no benchmark come out stably sorted by their old data modulo 128 |
| RunOrder.SortedIsUnique | application/coremark/core_list_join.c:454-535 | a stable sort has only one possible result |
| BenchList.core_list_reverse | application/coremark/core_list_join.c:421-431 | the list afterwards is the reversed sequence of the same nodes |
| BenchList.core_list_find | application/coremark/core_list_join.c:394-405 | the first node that matches by index, or by working byte when the index is negative, or NULL when there is none |
| BenchList.core_list_remove | application/coremark/core_list_join.c:337-349 | the successor leaves the list and the two items change places |
| BenchList.core_list_undo_remove | application/coremark/core_list_join.c:367-379 | the exact inverse: links and items are as before the removal |
| BenchList.RemoveAndUndo | application/coremark/core_list_join.c:187-199 | removing, looking at the list, and undoing leaves every link and item pointer as it was |
| BenchList.CacheNextItem | application/coremark/core_list_join.c:166-172 | moving the successor of the found node to behind the head keeps an acyclic list of the same nodes, also when the found node is the head or the last |
| BenchList.SearchTurn | application/coremark/core_list_join.c:157-178 | one turn of the search loop: what was found first, the exact order of the list afterwards, and the bit added to the checksum |
| BenchList.SearchLoop | application/coremark/core_list_join.c:155-184 | the loop finds, in each turn, the first match in the list as the turns before left it; the list is the start list after those turns, and the checksum is their bits plus four per hit less one per miss, in 16 bits |
| BenchList.FoundCounts | application/coremark/core_list_join.c:161-166 | the hits are the turns whose place lies in the list, and every turn is a hit or a miss |
| BenchList.IndexCounts | application/coremark/core_list_join.c:176-177 | a negative index stays, another one counts up in 16 bits, from 0x7fff to -0x8000, where it stays |
| BenchList.TurnBitIs | application/coremark/core_list_join.c:161-167 | bit 9 of a found item whose lowest bit is set, or bit 8 of the item before the last |
| BenchList.CountsAre | application/coremark/core_list_join.c:183 | four per hit less one per miss, modulo 2^16 |
| BenchList.AscendingAgain | application/coremark/core_list_join.c:201 | sorting by index undoes any rearrangement of a list that was in ascending order |
| BenchList.core_bench_list | application/coremark/core_list_join.c:144-212 | the same nodes with the same items, in index order, every working byte equal to its backup byte; an item is unchanged exactly when its working byte was so before; with different indices the order is the old one exactly when it was ascending |
| BenchList.EqualIndicesExchanged | application/coremark/core_list_join.c:144-212 | an input: indices 1, 1, 2 and one search that finds nothing leave the two equal nodes exchanged |
| BenchList.BenchRestoresList | application/coremark/core_list_join.c:144-212 | an ascending list with working bytes equal to backups comes back unchanged in every link and item |
| TcpModel.MatchIsMatch | application/ibexukIP/eth-tcp.c:962-1033 | the first socket connected to the sender, or else the last one listening on the port, or else none |
| TcpPorts.BusyPortsFew | application/ibexukIP/eth-tcp.c:1118-1137 | fewer ports in a row are busy than there are sockets, so the port search ends |
| TcpStack.Tcp.constructor | application/ibexukIP/eth-tcp.c:60-83 | the state after power-up and initialisation, with the driver's invariant |
| TcpStack.Tcp.tcp_initialise | application/ibexukIP/eth-tcp.c:60-83 | every socket closed and ready; the fields that it does not touch keep their values; the driver's invariant holds afterwards, whatever they were |
| TcpStack.Tcp.tcp_send_command_packet_from_socket | application/ibexukIP/eth-tcp.c:1442-1473 | the segment sent with its numbers and the transmit flags, or the command queued; keeps the driver's invariant |
| TcpStack.Tcp.tcp_close_socket | application/ibexukIP/eth-tcp.c:1290-1328 | a server socket listens again, a client socket is closed; nothing is awaited, no data is left; keeps the driver's invariant |
| TcpStack.Tcp.tcp_close_socket_from_listen | application/ibexukIP/eth-tcp.c:1338-1349 | the socket ends closed, server or not; keeps the driver's invariant |
| TcpStack.Tcp.tcp_request_disconnect_socket | application/ibexukIP/eth-tcp.c:1238-1277 | a connected socket sends FIN, together with the flags of a pending answer, and waits; any other is closed; keeps the driver's invariant |
| TcpStack.Tcp.tcp_open_socket_to_listen | application/ibexukIP/eth-tcp.c:1045-1077 | the first closed socket listens on the port; none changes if there is none; keeps the driver's invariant |
| TcpStack.Tcp.AssignPort | application/ibexukIP/eth-tcp.c:1118-1137 | the search ends with the first free port from the counter on, going round the range |
| TcpStack.Tcp.tcp_connect_socket | application/ibexukIP/eth-tcp.c:1090-1185 | the first closed socket with a free port and a new sequence number starts with SYN or with ARP; keeps the driver's invariant, so the new client's port is in the range and no other client has it |
| TcpStack.Tcp.tcp_connect_socket_send_syn_request | application/ibexukIP/eth-tcp.c:1194-1211 | SYN sent or queued, timer restarted; keeps the driver's invariant on a socket that is not closed and awaits nothing |
| TcpStack.Tcp.ListenSegment | application/ibexukIP/eth-tcp.c:613-660 | a SYN starts a connection, anything else is reset |
| TcpStack.Tcp.SynReceivedSegment | application/ibexukIP/eth-tcp.c:690-723 | an acknowledgement establishes the connection, its data is kept for the application |
| TcpStack.Tcp.SynSentSegment | application/ibexukIP/eth-tcp.c:724-773 | SYN with ACK establishes, SYN alone is answered as a request |
| TcpStack.Tcp.EstablishedSegment | application/ibexukIP/eth-tcp.c:792-838 | acknowledgement, FIN and data in an established connection |
| TcpStack.Tcp.ClosingSegment | application/ibexukIP/eth-tcp.c:839-895 | what ends a connection that is being closed, and what is answered |
| TcpStack.Tcp.process_tcp_segment | application/ibexukIP/eth-tcp.c:592-951 | the reaction to a segment in each of the ten states, and whether the answer is sent now or kept |
| TcpStack.Tcp.tcp_rx_check_for_matches_socket | application/ibexukIP/eth-tcp.c:962-1033 | the matching socket, and a listening one set up for its new peer |
| TcpStack.Tcp.tcp_process_rx | application/ibexukIP/eth-tcp.c:371-578 | one receive slot: a waiting packet blocks new ones until it is read, or its connection is lost; keeps the driver's invariant, so unread data is only ever on the active socket and while its packet waits |
| TcpStack.Tcp.tcp_read_next_rx_byte | application/ibexukIP/eth-tcp.c:1861-1875 | one unread byte less on the active socket, if there was one, also when no packet waits; keeps the driver's invariant |
| TcpStack.Tcp.tcp_dump_rx_packet | application/ibexukIP/eth-tcp.c:1914-1920 | the active socket has no unread data, also when no packet waits; keeps the driver's invariant |
| TcpStack.Tcp.tcp_is_socket_ready_to_tx_new_packet | application/ibexukIP/eth-tcp.c:1377-1393 | ready exactly when the NIC is, no answer is pending, and nothing awaits acknowledgement |
| TcpStack.Tcp.tcp_setup_socket_tx | application/ibexukIP/eth-tcp.c:1485-1514 | the sequence number moves on unless this is a resend; keeps the driver's invariant |
| TcpStack.Tcp.tcp_socket_tx_packet | application/ibexukIP/eth-tcp.c:1742-1770 | the data segment sent, the socket waiting for its acknowledgement; a resend keeps the running timeout; the driver's invariant is kept if and only if the socket's state deals with acknowledgements |
| TcpStack.Tcp.Retransmit | application/ibexukIP/eth-tcp.c:216-339 | the retry, give-up or resend of each state, the response flags carried over where a state sets none |
| TcpStack.Tcp.process_tcp | application/ibexukIP/eth-tcp.c:96-359 | a pass over all sockets, ended early when the NIC cannot send; keeps the driver's invariant: back-off stays in 300..3000, retries are bounded, awaiting and resending exclude each other |
| TcpSegments.ExpectedNext | application/ibexukIP/eth-tcp.c:613-895 | the number expected next after a segment, in every state: an accepted one's number plus its data, plus one for a SYN or FIN, modulo 2^32; any other segment leaves it alone |
| TcpSegments.OwnNumbers | application/ibexukIP/eth-tcp.c:599-838 | the own sequence number after a segment: what was sent is counted once, a SYN or FIN sent now counts one |
| TcpSegments.NextState | application/ibexukIP/eth-tcp.c:613-895 | the state after a segment, in every state |
| TcpSegments.DataAndTimer | application/ibexukIP/eth-tcp.c:605-838 | when data is left to read, that an acknowledgement ends the waiting, and that every segment restarts the timer with 300 |
| TcpSegments.Readiness | application/ibexukIP/eth-tcp.c:613-895 | after which segments the socket may send |
| TcpSegments.PeerAndOthers | application/ibexukIP/eth-tcp.c:592-660 | only a SYN to a listening socket changes its peer; no other socket is touched |
| TcpSegments.AnswerGoesOut | application/ibexukIP/eth-tcp.c:901-951 | the answer of each state, flag by flag: sent at once with the new numbers, queued, or kept while data waits; where the sender is reset instead |
| TcpExchange.ServerOpens | application/ibexukIP/eth-tcp.c:613-723 | SYN, SYN+ACK, ACK: the connection is established with the numbers of both sides |
| TcpExchange.ClientCalls | application/ibexukIP/eth-tcp.c:1090-1211 | the first closed socket sends SYN with a new number from a port in 1024..5000 that no other open socket has |
| TcpExchange.ClientOpens | application/ibexukIP/eth-tcp.c:724-773 | the SYN+ACK that answers it establishes the connection, is acknowledged, and leaves the socket ready to send |
| TcpExchange.NextIsTaken | application/ibexukIP/eth-tcp.c:371-578 | a segment in order of an established connection leaves exactly its data to read; read and answered, it leaves the socket ready for the next number, which it has acknowledged |
| TcpExchange.StreamArrives | application/ibexukIP/eth-tcp.c:371-951 | any stream of segments in order, with or without a last FIN, is left for the application byte for byte, and the number expected next is the first plus the bytes plus the FIN |
| TcpExchange.DataGoesOut | application/ibexukIP/eth-tcp.c:1485-1770 | a new data segment has the next number, a resent one the number that it had, and its acknowledgement is awaited |
| TcpExchange.DataAcknowledged | application/ibexukIP/eth-tcp.c:792-815 | the acknowledgement of all bytes makes the socket ready for the next ones |
| TcpExchange.NumbersFollow | application/ibexukIP/eth-tcp.c:1485-1770 | any data sent piece by piece, each after the acknowledgement of the one before, goes out with numbers that follow without gap |
| TcpExchange.EndsFromHere | application/ibexukIP/eth-tcp.c:875-895 | after our FIN, a FIN with its acknowledgement is acknowledged and ends the connection |
| TcpExchange.EndsFromBoth | application/ibexukIP/eth-tcp.c:839-895 | FINs that cross are both acknowledged before the connection ends |
| TcpExchange.LastAck | application/ibexukIP/eth-tcp.c:839-874 | the acknowledgement of the last FIN ends the connection without an answer |
| TcpTurns.TimeoutRepeats | application/ibexukIP/eth-tcp.c:176-358 | a timeout with retries left sends again, from the socket to its peer with its numbers: SYN in SYN_REQUEST_SENT, SYN+ACK in SYN_REQUEST_RECEIVED, FIN in FIN_WAIT_1 and LAST_ACK_SENT, ACK in CLOSING, the last flags in an established connection that awaits an acknowledgement without data |
| TcpTurns.TimeoutAsksForData | application/ibexukIP/eth-tcp.c:260-272 | unacknowledged data is left to the application to send again |
| TcpTurns.TimeoutForgetsData | application/ibexukIP/eth-tcp.c:260-355 | which is forgotten exactly if flags of a socket before are sent |
| TcpTurns.TimeoutWhenIdle | application/ibexukIP/eth-tcp.c:274-283 | an idle connection sends nothing and starts its retries anew |
| TcpTurns.TimeoutEnds | application/ibexukIP/eth-tcp.c:285-301 | beyond the retries an established connection sends FIN+ACK and waits in FIN_WAIT_1 |
| TcpTurns.TimeoutCloses | application/ibexukIP/eth-tcp.c:227-339 | beyond the retries the other states listen again or are closed, and nothing is sent |
| TcpTurns.TimeoutInherits | application/ibexukIP/eth-tcp.c:227-355 | unless a socket before has left flags: these are sent |
| TcpTurns.TimeoutWaitsForArp | application/ibexukIP/eth-tcp.c:176-212 | without an answer of ARP a timeout only restarts the timer |
| TcpTurns.QueuedCommand | application/ibexukIP/eth-tcp.c:142-147 | a queued command is sent first, with the socket's numbers, or stays queued |
| TcpTurns.ArpTurn | application/ibexukIP/eth-tcp.c:152-170 | ARP is asked, and with its answer SYN goes out |
| TcpTurns.QuietTurn | application/ibexukIP/eth-tcp.c:112-186 | otherwise a turn does nothing, and a timeout with a NIC that cannot send ends the pass |
| TcpTurns.PassRepeats | application/ibexukIP/eth-tcp.c:96-359 | a whole pass sends or queues the repeated segment of every socket that it reaches, whatever the sockets before it did |
| TcpTurns.PassEnds | application/ibexukIP/eth-tcp.c:96-359 | and the FIN+ACK of every established connection whose retries are used up |
| TcpTurns.DataIsSentAgain | application/ibexukIP/eth-tcp.c:96-359 | data that times out in a pass is asked for again if and only if the sockets before leave no flags or the NIC cannot take them |
| TcpCalls.AfterInitialise | application/ibexukIP/eth-tcp.c:60-83 | all sockets closed and ready, timeouts 300, ports from 1024 on |
| TcpCalls.WhoIsMatched | application/ibexukIP/eth-tcp.c:962-1033 | by ports and addresses: the first socket with this peer, else the last one that listens |
| TcpCalls.Refused | application/ibexukIP/eth-tcp.c:527-568 | a packet for no socket is answered with a reset numbered behind its last byte, and nothing else changes |
| TcpCalls.Answered | application/ibexukIP/eth-tcp.c:962-1033 | a SYN to a listening socket is answered in the same call; the socket is ready to send unless it was left unready by this very peer |
| TcpCalls.SlotIsHeld | application/ibexukIP/eth-tcp.c:371-425 | a damaged packet changes nothing, a waiting one blocks until it is read or its connection is lost, and then the kept answer goes out |
| TcpCalls.ReadingEnds | application/ibexukIP/eth-tcp.c:1861-1920 | every read takes one byte, reads beyond the last take none, and reading all is dumping |
| TcpCalls.Listens | application/ibexukIP/eth-tcp.c:1045-1077 | the first closed socket listens on the port, for any peer |
| TcpCalls.AsksArpFirst | application/ibexukIP/eth-tcp.c:1140-1185 | without a MAC address a client waits for ARP and sends nothing |
| TcpCalls.PortsGoRound | application/ibexukIP/eth-tcp.c:1118-1137 | ports are tried one after the other, 1024 after 5000 |
| TcpCalls.Closes | application/ibexukIP/eth-tcp.c:1290-1349 | what closing leaves of a socket, field by field |
| TcpCalls.Disconnects | application/ibexukIP/eth-tcp.c:1238-1277 | FIN+ACK, with the SYN or RST of a pending answer, from an established connection; a plain close otherwise |
| TcpCalls.NotSetUp | application/ibexukIP/eth-tcp.c:1485-1514 | a packet that cannot be set up sends nothing and uses no number |
| TcpRuns.SegmentIsSound | application/ibexukIP/eth-tcp.c:592-951 | a segment leaves unread data exactly with packets that are not dumped, and a socket that keeps stop-and-wait |
| TcpRuns.ConnectKeeps | application/ibexukIP/eth-tcp.c:1097-1139 | a new client has a port in the range that no other open socket has |
| TcpRuns.ReceivedKeeps | application/ibexukIP/eth-tcp.c:371-578 | a received packet keeps the driver's invariant |
| TcpRuns.PassKeeps | application/ibexukIP/eth-tcp.c:96-359 | a background pass keeps the driver's invariant |
| TcpRuns.StepKeepsInv | application/ibexukIP/eth-tcp.c:60-1920 | so does every call, packet and pass, data being sent where its acknowledgement is dealt with and bytes read of a socket in the table |
| TcpRuns.RunKeepsInv | application/ibexukIP/eth-tcp.c:60-1920 | and every sequence of them |
| TcpRuns.EveryRun | application/ibexukIP/eth-tcp.c:254-301 | after every run: a socket that awaits an acknowledgement is not ready to send and is ESTABLISHED, FIN_WAIT_1, CLOSING or LAST_ACK_SENT; one to resend is ready and awaits nothing; timeouts stay in 300..3000; only the active socket has unread data, and only while a packet waits |
| TcpRuns.EveryRunPorts | application/ibexukIP/eth-tcp.c:1116-1139 | after every run, client sockets that are not closed have pairwise different local ports in 1024..5000 |
| TcpRuns.SendingNeedsConnection | application/ibexukIP/eth-tcp.c:1742-1770 | sending data keeps the invariant if and only if the socket's state deals with acknowledgements |
| TcpRuns.SendingWhenClosed | application/ibexukIP/eth-tcp.c:60-83 | an input: a closed socket right after initialisation is ready, and sending on it breaks the invariant |
| TcpRuns.EveryRunReads | application/ibexukIP/eth-tcp.c:1861-1920 | in every run, reading and dumping stay in the socket table exactly if the active socket is not TCP_INVALID_SOCKET |
| TcpRuns.NothingToReadAfterPacket | application/ibexukIP/eth-tcp.c:402-407 | after a packet was read and taken from the slot the active socket is TCP_INVALID_SOCKET |
| TcpFlags.RetryInherits | application/ibexukIP/eth-tcp.c:216-321 | the switch over the states passes earlier flags on exactly in the listed states and retry counts, and what it does to the socket does not depend on them |
| TcpFlags.FlagsGoOutElsewhere | application/ibexukIP/eth-tcp.c:96-341 | a pass differs from one with the flags reset for every socket if and only if a socket that sets none times out after one that set some, with none setting flags in between |
| TcpFlags.FlagsReach | application/ibexukIP/eth-tcp.c:96-341 | then the later socket sends or queues exactly the earlier one's flags, to its own peer |
| TcpFlags.SynToOldPeer | application/ibexukIP/eth-tcp.c:103 | an input: a pass that gives a connection up and sends its peer the SYN of another socket |
| TcpQuiet.PassIsQuiet | application/ibexukIP/eth-tcp.c:96-359 | what a pass does to a dying socket does not depend on the other sockets, nor on their response flags |
| TcpQuiet.TimeoutsCount | application/ibexukIP/eth-tcp.c:176-339 | every timeout brings a dying socket exactly one step nearer to its end, and nothing else in the passes does |
| TcpQuiet.DyingSocketsAreGivenUp | application/ibexukIP/eth-tcp.c:305-337 | with nothing received, a socket in SYN_REQUEST_RECEIVED, FIN_WAIT_1, LAST_ACK_SENT or CLOSING is back in LISTEN or closed exactly when its timeouts are used up, at most TCP_MAX_NUM_OF_RETRIES+1 of them |
| TcpQuiet.FivePassesClose | application/ibexukIP/eth-tcp.c:96-359 | five passes, each more than the longest timeout after the one before, end every such connection |
| TcpQuiet.GivenUpInTime | application/ibexukIP/eth-tcp.c:96-359 | passes at any times, none more than a gap after the one before: every dying connection ends within four longest timeouts and four gaps |
| TcpQuiet.ConnectingGoesOn | application/ibexukIP/eth-tcp.c:218-224 | a SYN request is never given up by the driver |
| Sha1Spec.ZerosAreFewest | application/libbase/sha1.c:264-270 | the padding uses the fewest zero bytes that leave room for the length |
| Sha1Spec.ConstantsAreRoots | application/libbase/sha1.c:45-49 | the round constants are the integer parts of 2^30 times the square roots of 2, 3, 5 and 10 |
| Sha1.Blk | application/libbase/sha1.c:41-42 | the sixteen-word circular block yields the next word of the eighty-word schedule |
| Sha1Spec.ChRewritten | application/libbase/sha1.c:45-46 | the rewritten choice function is Ch of FIPS 180-4 |
| Sha1Spec.MajRewritten | application/libbase/sha1.c:48 | the rewritten majority function is Maj of FIPS 180-4 |
| Sha1.R0 | application/libbase/sha1.c:45 | a round on the block's own words, operands in rotated roles, is the round of section 6.1.2 |
| Sha1.R1 | application/libbase/sha1.c:46 | the same for rounds 16 to 19 |
| Sha1.R2 | application/libbase/sha1.c:47 | the same for rounds 20 to 39 |
| Sha1.R3 | application/libbase/sha1.c:48 | the same for rounds 40 to 59 |
| Sha1.R4 | application/libbase/sha1.c:49 | the same for rounds 60 to 79 |
| Sha1.Rounds0 | application/libbase/sha1.c:86-95 | the unrolled rounds 0 to 9 are those of FIPS 180-4 |
| Sha1.Rounds10 | application/libbase/sha1.c:96-105 | rounds 10 to 19 |
| Sha1.Rounds20 | application/libbase/sha1.c:106-115 | rounds 20 to 29 |
| Sha1.Rounds30 | application/libbase/sha1.c:116-125 | rounds 30 to 39 |
| Sha1.Rounds40 | application/libbase/sha1.c:126-135 | rounds 40 to 49 |
| Sha1.Rounds50 | application/libbase/sha1.c:136-145 | rounds 50 to 59 |
| Sha1.Rounds60 | application/libbase/sha1.c:146-155 | rounds 60 to 69 |
| Sha1.Rounds70 | application/libbase/sha1.c:156-165 | rounds 70 to 79 |
| Sha1.SHA1Transform | application/libbase/sha1.c:54-177 | for every state and block, the computation of section 6.1.2 of FIPS 180-4 |
| Sha1.CountsUp | application/libbase/sha1.c:208-212 | the two halves and the carry test count bits modulo 2^64 |
| Sha1.Context.constructor | application/libbase/sha1.c:182-193 | the context of the empty message |
| Sha1.Context.SHA1Update | application/libbase/sha1.c:198-226 | after an update the context is that of the message with the data appended: hash value of its whole blocks, bit count, and the rest in the buffer |
| Sha1.SplitDoesNotMatter | application/libbase/sha1.c:198-226 | state, count and live buffer depend only on the concatenation, not on how it was split |
| Sha1.Context.Pad | application/libbase/sha1.c:264-270 | the padding loop ends, with exactly the zero bytes of section 5.1.1 |
| Sha1.CountBytes | application/libbase/sha1.c:259-262 | the count bytes are the bit length, most significant first |
| Sha1.Context.SHA1Final | application/libbase/sha1.c:231-280 | the digest is the SHA-1 of the message padded by section 5.1.1, and the context is wiped |
| Sha1.SHA1 | application/libbase/sha1.c:282-295 | hashing byte by byte gives the one-shot SHA-1, and a NUL |
| Crc32.TableIsBits4 | application/libhw/crc32.c:31-35 | a table entry stands for four bit steps with polynomial 0xEDB88320 |
| Crc32.ByteByTable | application/libhw/crc32.c:39-40 | two look-ups are eight bit steps |
| Crc32.HalfByteCrc | application/libhw/crc32.c:25-45 | the table gives the bit-at-a-time reflected CRC for data of every length |
| Crc32.CheckValue | application/libhw/crc32.c:25-45 | the CRC of no data is 0 and that of "123456789" is 0xCBF43926, the published check value of CRC-32 |
| Crc32.Bits8Injective | application/libhw/crc32.c:39-40 | the step is a bijection |
| Crc32.FourIn | application/libhw/crc32.c:37-42 | four bytes act on the register as one linear word |
| Crc32.AcceptedIsResidue | application/ibexukIP/eth-nic.c:99-109 | a frame passes the check exactly when all its bytes, trailer included, leave one fixed register value |
| Crc32.BurstIsRejected | application/ibexukIP/eth-nic.c:99-109 | any change of an accepted frame confined to four consecutive bytes, trailer included, is rejected |
| Nic.FrameIsAccepted | application/ibexukIP/eth-nic.c:308-329 | every frame that is built passes the receiver's length and CRC check and starts with its content |
| Nic.Controller.nic_write_next_byte | application/ibexukIP/eth-nic.c:219-223 | the byte is appended |
| Nic.Controller.nic_write_array | application/ibexukIP/eth-nic.c:233-238 | the bytes are appended |
| Nic.Controller.nic_write_tx_word_at_location | application/ibexukIP/eth-nic.c:257-262 | two bytes are replaced, upper byte first |
| Nic.Controller.nic_tx_packet | application/ibexukIP/eth-nic.c:308-329 | the slot holds the content padded to 60 bytes and its CRC, low byte first |
| Nic.Controller.nic_check_for_rx | application/ibexukIP/eth-nic.c:88-117 | the length of a packet that passes the check, and 0 with the slot released for any other |
| IpChecksum.ip_add_bytes_to_ip_checksum | application/ibexukIP/eth-ip.c:340-370 | for any chunking of the bytes: 0 if the word sum S is 0, else ((S-1) mod 65535)+1, an odd tail padded with zero |
| IpChecksum.CarryFolds | application/ibexukIP/eth-ip.c:361-366 | the end-around carry adds to that value as to the sum |
| IpChecksum.EvenPiecesInAnyOrder | application/ibexukIP/eth-ip.c:340-370 | any number of pieces of even length may be added in any order, before a last piece of any length |
| IpChecksum.UndetectedExactly | application/ibexukIP/eth-ip.c:340-370 | exactly which data have equal checksums |
| IpChecksum.PutAdds | application/ibexukIP/eth-ip.c:297-321 | a word at an even place adds its value whenever it is filled in |
| IpChecksum.ip_get_header | application/ibexukIP/eth-ip.c:94-150 | accepts exactly the headers with version 4, options that fit, and the right checksum, however the fields are summed |
| IpChecksum.IpAcceptedInWords | application/ibexukIP/eth-ip.c:94-150 | the test by byte offsets: version 4, five to ten words, and the word at 10 the complement of the folded sum of the others |
| IpChecksum.AgreesWithAllOnes | application/ibexukIP/eth-ip.c:143-150 | that is the all-ones test of RFC 1071, but for the field 0xFFFF |
| IpChecksum.MinusZeroRejected | application/ibexukIP/eth-ip.c:143-150 | an input: a header with the field 0xFFFF that passes the all-ones test and is rejected |
| TcpChecksum.TcpRxCheck | application/ibexukIP/eth-tcp.c:453-510 | the receiver's piecewise and bytewise sum is the checksum over pseudo header and segment, for every announced length; a shorter one counts a header's bytes |
| TcpChecksum.TcpAcceptedInWords | application/ibexukIP/eth-tcp.c:453-510 | the test by byte offsets: the word at 16 is the complement of the folded sum of both addresses, the protocol 6, the length, and the segment without it |
| TcpChecksum.Sender.ip_write_header | application/ibexukIP/eth-ip.c:217-285 | the header written, with the next identifier, and summed without its length |
| TcpChecksum.Sender.ip_tx_packet | application/ibexukIP/eth-ip.c:297-325 | with the length added last, the header passes the receiver's IP check |
| TcpChecksum.IpHeaderArrives | application/ibexukIP/eth-ip.c:217-325 | the bytes of the IP header that is sent, by offset: version and length, total length, identifier, no fragments, lifetime 100, TCP, both addresses |
| TcpChecksum.Sender.tcp_setup_tx | application/ibexukIP/eth-tcp.c:1526-1657 | the IP header and the TCP header, by byte offset: ports, numbers, header length, flags, window 1460, urgent pointer 0, with a SYN the option 2, 4 and 1460; all summed but for the lengths |
| TcpChecksum.FieldsArrive | application/ibexukIP/eth-tcp.c:1543-1572 | the receiver reads from the header the fields that were sent, the window 1460 and the option of a SYN, and finds the data where the header length says, with or without the option |
| TcpChecksum.Sender.tcp_write_next_byte | application/ibexukIP/eth-tcp.c:1668-1685 | a byte written and summed, unless the packet is too long |
| TcpChecksum.Sender.tcp_write_array | application/ibexukIP/eth-tcp.c:1696-1713 | the bytes written and summed, unless the packet would be too long |
| TcpChecksum.Sender.tcp_tx_packet | application/ibexukIP/eth-tcp.c:1780-1806 | the packet passes the receiver's IP and TCP checks, odd data lengths included, with fields and data as written |
| Base64.DigitsOfGroup | application/libbase/base64.c:185-192 | the shifts and masks pick the four digits of the 24-bit group of RFC 4648 |
| Base64.AlphabetInAscii | application/libbase/base64.c:171-172 | the 64 letters are those of RFC 4648, in the codes of ASCII |
| Base64.SixInverts | application/libbase/base64.c:90-109 | the decoder's table gives every letter its digit and every other character none |
| Base64.TestVectors | application/libbase/base64.c:179-209 | the vectors of section 10 of RFC 4648: "f", "fo" and "foo" |
| Base64.BytesOfDigits | application/libbase/base64.c:141-164 | decoding the digits of any data gives the data |
| Base64.RoundTrip | application/libbase/base64.c:111-209 | the encoding is terminated where its letters end and decodes to the original bytes |
| Base64.Base64encode | application/libbase/base64.c:179-209 | writes the RFC 4648 encoding and a NUL, exactly Base64encode_len bytes |
| Base64.Base64decode_len | application/libbase/base64.c:111-124 | more than the decoded length of any terminated input |
| Base64.Base64decode | application/libbase/base64.c:126-169 | writes the decoded bytes and a NUL, at most Base64decode_len bytes, for any terminated input, one stray digit ignored |
| Base64.EncodeThenDecode | application/libbase/base64.c:111-209 | the original bytes, their length, and a NUL |
| Http.HttpSocket.http_transmit_next_response_packet | application/ibexukIP/eth-http.c:1083-1451 | what is sent and how the position moves, for new packets and resends |
| Http.PacketSent | application/ibexukIP/eth-http.c:1083-1355 | a new packet has the next bytes, as many as are left but 1460 at most; a read that fails sends nothing and leads to "service unavailable" |
| Http.CallKeeps | application/ibexukIP/eth-http.c:1104-1165 | every call keeps: confirmed plus remaining is the file, what waits is its next slice |
| Http.ResendRepeats | application/ibexukIP/eth-http.c:1104-1113 | a resend repeats the last packet and changes nothing else |
| Http.FileArrivesOnce | application/ibexukIP/eth-http.c:1083-1451 | any interleaving of new packets and resends confirms consecutive slices that make up the file once; the response ends only with the whole file confirmed and none remaining |
| Http.HeadSendsNoData | application/ibexukIP/eth-http.c:1127-1133 | a HEAD request gets no byte of the file |
| Http.NonEmptyFileEnds | application/ibexukIP/eth-http.c:1140-1163 | a non-empty file is done after a bounded number of new packets, whatever is resent |
| Http.EndsUnlessEmpty | application/ibexukIP/eth-http.c:1124-1163 | a response can end if and only if the file is not empty |
| Rtc.BcdRoundTrip | application/libbase/bcd.c:34-40 | a byte survives the conversion to BCD and back exactly if it is below 160 |
| Rtc.BcdDigits | application/libbase/bcd.c:34-40 | below 100 the tens are in the upper half of the register and the ones in the lower, and back |
| Rtc.MillenniumIsCalendar | application/libhw/ds1338z.c:49 | the constant is the first second of 2000, counted by the Gregorian calendar from 1970 on |
| Rtc.Billion | application/libhw/ds1338z.c:110-135 | an input: second 1000000000 is 2001-09-09 01:46:40 |
| Rtc.TableIsCalendar | application/libhw/ds1338z.c:89 | the month table and the every-fourth-year rule agree with the Gregorian calendar from 2000 to 2099 |
| Rtc.FindYear | application/libhw/ds1338z.c:153-163 | the year loop breaks for every second before 2099, a negative one in 2000, else with the year that the second lies in; from 2099 on the year is never set |
| Rtc.FindMonth | application/libhw/ds1338z.c:165-175 | the month loop breaks inside the table for every second of the year; only the first second of a month stays with the month before |
| Rtc.FindTime | application/libhw/ds1338z.c:177-185 | day, hour, minute and second with their truncations to a byte, for seconds of a month and for the day before 2000 |
| Rtc.MonthUnique | application/libhw/ds1338z.c:153-175 | no month begins inside another one |
| Rtc.Ds1338z.ds1338z_setRawClockData | application/libhw/ds1338z.c:137-146 | the registers hold second, minute, hour, day of the week, day, month and year in this order and in BCD, and read back as the record; they are unchanged when the transfer fails |
| Rtc.Ds1338z.ds1338z_setUnixTime | application/libhw/ds1338z.c:148-188 | for every word of time_t: from 2000 to 2099 the registers stand for the given second, and hold a date of the calendar exactly unless it is the first second of a month after January; for an earlier time they hold a reading of January 2000 |
| Rtc.Ds1338z.ds1338z_getUnixTime | application/libhw/ds1338z.c:110-135 | the Unix time of the registers by the Gregorian calendar, whatever the day, as a word of time_t |
| Rtc.Ds1338z.SetAndGet | application/libhw/ds1338z.c:110-188 | for every word before 2099, setting and reading back gives the same word if and only if the seconds since 2000 are not negative, or are those of 1999-12-31 00:00:00 |
| Rtc.Ds1338z.SetAndGetMoment | application/libhw/ds1338z.c:110-188 | from 2000-01-01 up to 2099-01-01 a moment survives if and only if its seconds since 2000 are below half the range of time_t |
| Rtc.FirstLostMoment | application/libhw/ds1338z.c:151 | an input: with 32 bits the second 3094168448 is taken for one before 2000 |
| Rtc.FirstOfFebruary | application/libhw/ds1338z.c:169-178 | an input for which the stored day is not a date |

## Left out

- Hardware: UART, I2C, GPIO, timers, the miniMAC registers and slots, and the hardware branches of CRC and multiplication. The NIC is a buffer and a "can transmit" answer, an I2C transfer an "it worked" answer.
- Heap: the contents of allocated blocks; hence `pvPortZalloc`'s clearing. Freeing a pointer that is not live is a caller error and not modelled.
- CoreMark: `core_list_init`, the checksum over the list items in `core_bench_list`, and the matrix and state benchmarks.
- CoreList.CalcFunc: the results of the state and matrix benchmarks are arbitrary values, and `res->crc` is not kept; no order or restoration claim depends on them.
- BenchList.core_bench_list: requires three nodes (a head, one to modify, and the fake tail that `core_list_remove` relies on), which `core_list_init` provides; its return value, a CRC over the items, is not modelled beyond the search loop.
- TCP: the sockets are records in an array rather than objects; DHCP, ARP, ICMP and UDP; delivery end to end, which the driver does not promise (it advances the sequence number before it looks at the acknowledgement).
- TcpStack.Tcp.tcp_process_rx: whether a packet is long enough and its checksum right is an input here; TcpChecksum.TcpRxCheck models that test on its own.
- TcpStack.Tcp.tcp_read_next_rx_byte: requires the active socket's number to be in the table; otherwise the source reads behind the table.
- TcpStack.Tcp.tcp_dump_rx_packet: requires the same; otherwise the source writes behind the table.
- Sha1.Context.SHA1Update: requires len + 63 below 2^32; beyond that the 32-bit index of the source wraps.
- HTTP: request parsing, POST, multipart and dynamic content, error responses, and the text of the headers.
- Http.FileArrivesOnce: a reader that fails is not covered; Http.PacketSent says what one call does then.
- Base64.Base64decode: an input without a terminating character is not covered; the source reads on behind it.
- Rtc.Ds1338z.ds1338z_setUnixTime: from 2099 on nothing is said of the registers but that the year is what memory held, and before 2000 nothing of hour, minute and second.
- Rtc.Ds1338z.ds1338z_getUnixTime: requires a month that does not lead beyond the table, and states its result for years below 100 and months from 1 on; other register contents are no reading of the clock.
- IpChecksum.ip_get_header: requires 40 bytes after the Ethernet header, which every frame of 64 bytes has; the address checks behind the checksum are not modelled.
- TcpChecksum.TcpRxCheck: requires the receive slot to reach to the announced length; the source reads on in memory.
- Floating point, number formatting, GDB framing, gray code, interrupt priorities, build scripts and HDL.
