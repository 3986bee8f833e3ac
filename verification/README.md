# A verified model of an lwIP stack for LPC18xx/43xx

The project models eight parts of an embedded TCP/IP system, lwIP 1.4.1 with a DMA Ethernet driver, and
proves what each of them is for, on all inputs and over all runs. Code that works in place is modelled by
classes over arrays and fields with the loops of the original, and proved against specification functions and
invariants. Code in which several contexts interleave is modelled as a state machine, one step per section that
runs protected, or by letting the other party run between any two writes.

| file | models |
|---|---|
| `MemLayout`, `MemHeap`, `MemShared`, `MemInterrupt` | the heap of `lwip/src/core/mem.c`: a tiling of a byte range as a value, the headers and loops that keep it, and the variant in which an interrupt frees and trims while `mem_malloc` scans, as a state machine and on the headers |
| `EmacTx`, `EmacRx` (with `Ring`) | the two descriptor rings of `lwip/src/arch/lpc18xx_43xx_emac.c`, with the DMA engine running between any two writes of the driver |
| `SelectList`, `SelectProtocol`, `SelectScan` | the wake-up protocol of `lwip/src/api/sockets.c` between `lwip_select` and `event_callback` |
| `SocketRecv` | `lwip_recvfrom` of the same file on a TCP socket |
| `Netconn` | the blocking operations of `lwip/src/api/api_msg.c` and the callbacks that carry them on |
| `DhcpClient`, `DhcpOptions` | the DHCP client of `lwip/src/core/dhcp.c` (section 4.4 of RFC 2131) and its options (section 2 of RFC 2132) |
| `Dns` | the resolver table of `lwip/src/core/dns.c` |
| `Memp` | the element pools of `lwip/src/core/memp.c` and their check by Floyd's cycle finder |
| `Crc16` | the two table-driven checksums of `src/comm/CRC16.C` |
| `Arith`, `Basics` | arithmetic facts and types used by the others |

`dafny verify dfyconfig.toml` checks everything.

Sizes are arbitrary: heap, header and alignment in `MemLayout.Config` (subject to `Config.Ok`, which says that
the sizes are aligned and that the heap fits `mem_size_t`), ring lengths, table and pool sizes, the number of
sockets and threads. What the hardware, the TCP core, the network and the clock do enters as parameters: `dma`
gives the steps of the DMA engine between two writes, `env` the results of `netconn_recv`, `Tcp` those of
`tcp_sndbuf`, `tcp_write` and `tcp_close`, and events stand for timers and packets. All these may have any
length; where `dma` or the windows of `mem_malloc` end, nothing more happens meanwhile.

`EmacTx`, `EmacRx`, `Netconn`, `DhcpClient` and `Dns` each end in a theorem about runs. There the class refines a
machine without loops or pointers: a function `Next` (in `Dns` a relation `Moves`, which is shown to leave no choice)
says what each event does to the state, every method is proved against it, and `Run` ends in the state that the
events lead to.

Where the code does not do what its comments or callers expect, the model follows the code, a lemma or method
gives an input that shows it, and the exact condition is proved:

* a heap request whose rounding wraps the 16-bit size gets less than it asked for, and a trim likewise
  (`AllocationCovers`, `WrapExample`, `TrimPromise`);
* an event wakes the thread that waits for it unless somebody takes the data before the callback comes to it
  (`EventWakes`, `ArrivalWakes`, `TakenFirst`);
* `MSG_PEEK` opens the receive window, and the read that follows opens it again (`Recvfrom`, `PeekThenRead`);
* when the send timeout ends a write halfway, `write_offset` stays; a write, close or delete then fails an assertion
  if and only if the last write was ended like that (`Handle`, `Run`, `CutShort`);
* a server that offers or acknowledges 0.0.0.0, and a renewal asked for without an offer, make the DHCP client
  bind its interface to 0.0.0.0 if an acknowledgement or the ARP check follows, and nothing else does (`Recv`,
  `Handle`, `Run`, `RenewTooEarly`);
* an offer without a server identifier stops the DHCP client's timer, and renewal is not retried once the 8-bit
  counter of tries is back at 0 (`HandleOffer`, `Stalled`, `Renew`, `RenewalGivenUp`);
* a lease time within half a minute of 2^32 seconds wraps to one minute (`MinutesMeaning`), and an answer of the name
  server with a time to live of 0 is kept for 2^32 seconds (`AnswerStays`);
* `dns_enqueue` can refuse a query although an entry is completed, because it compares sequence numbers that
  have wrapped (`Enqueue`, `Refuses`).

## Model

| member | source | states |
|---|---|---|
| MemLayout.RoundedMeaning | lwip/src/core/mem.c:503-515 | the size worked with is aligned and at least the minimum; it covers the request if and only if rounding did not wrap or the minimum is enough, and it is the minimum if rounding wrapped |
| MemLayout.FreshWellFormed | lwip/src/core/mem.c:273-302 | the heap of `mem_init` is a valid tiling with one free block, which is the lowest, and nothing in use |
| MemLayout.CarveWellFormed | lwip/src/core/mem.c:557-587 | taking a block, split or whole, keeps the tiling, alignment, minimum sizes and the absence of free neighbours |
| MemLayout.ReleaseWellFormed | lwip/src/core/mem.c:310-356 | freeing a block, with merging to both sides, keeps all of that |
| MemLayout.ShrinkWellFormed | lwip/src/core/mem.c:368-482 | so does trimming one |
| MemLayout.ReleaseHoles | lwip/src/core/mem.c:235-268 | after a free the only places where free blocks can touch are the two ends of the freed block, so plugging there is enough |
| MemLayout.PlugsAll | lwip/src/core/mem.c:235-268 | and the two halves of `plug_holes` remove exactly those |
| MemLayout.ReleaseLowest | lwip/src/core/mem.c:344-347 | lowering `lfree` to the freed block, if that lies below, leaves it at the lowest free block |
| MemLayout.ShrinkLowest | lwip/src/core/mem.c:419-476 | the same for the free space that a trim makes, including a free block that moves |
| MemLayout.ReleaseCounts | lwip/src/core/mem.c:348 | the bytes in use go down by the extent of the freed block, header included |
| MemLayout.ShrinkCounts | lwip/src/core/mem.c:446-468 | trimming lowers them by what the block loses |
| MemLayout.CarveCounts | lwip/src/core/mem.c:577-587 | taking a block raises them by its extent |
| MemLayout.CarveExact | lwip/src/core/mem.c:546-587 | the new block ends with the request if the rest has room for a header and the minimum, and otherwise keeps its end; no other cut changes, and less than a header and the minimum is wasted |
| MemLayout.ReleaseExact | lwip/src/core/mem.c:235-268 | a freed block is one with the free blocks right before and behind it, and no other cut changes |
| MemLayout.ShrinkExact | lwip/src/core/mem.c:411-476 | a trimmed block ends where it should; what it loses joins the free block behind it or becomes one if it has room, and else nothing changes |
| MemLayout.FirstFitExact | lwip/src/core/mem.c:531-546 | the first fit is free, has the bytes asked for, and no free block below it has |
| MemLayout.CarveThenRelease | lwip/src/core/mem.c:235-268 | freeing what was just allocated restores the heap, whether the block was split or not |
| MemLayout.FreeAll | lwip/src/core/mem.c:235-268 | freeing all live blocks in any order restores the heap of `mem_init` |
| MemLayout.AllocationDisjoint | lwip/src/core/mem.c:550-608 | a new block was free, lies in the heap and overlaps no other live block, none of which moves |
| MemLayout.AllocationCovers | lwip/src/core/mem.c:503-521 | the data is aligned, and it covers the request if and only if rounding did not wrap |
| MemLayout.WrapExample | lwip/src/core/mem.c:509-515 | a request of 65534 bytes that is granted 12 on a heap of 64 |
| MemLayout.TrimPromise | lwip/src/core/mem.c:369-410 | a size larger than the block is refused if and only if rounding it did not wrap |
| MemLayout.EffectWellFormed | lwip/src/core/mem.c:310-482 | every free and trim of the other context keeps the heap valid and `lfree` exact, and those that raise no flag change nothing |
| MemHeap.UnlinkedLinks | lwip/src/core/mem.c:246-266 | taking one header out of the list leaves `next` and `prev` of all others right, `prev` of the sentinel excepted |
| MemHeap.LinkedLinks | lwip/src/core/mem.c:567-576 | so does putting one in |
| MemHeap.Heap.constructor | lwip/src/core/mem.c:273-302 | `mem_init` establishes the invariant |
| MemHeap.Heap.PlugHoles | lwip/src/core/mem.c:235-268 | leaves no free neighbours, with the links of the remaining headers right |
| MemHeap.Heap.Free | lwip/src/core/mem.c:310-356 | `mem_free`: the block is free and one with its free neighbours; NULL and pointers outside the heap change nothing |
| MemHeap.Heap.Trim | lwip/src/core/mem.c:368-482 | `mem_trim`, with its refusals, its merge with a free neighbour and its split, each cut for cut |
| MemHeap.Heap.Search | lwip/src/core/mem.c:530-559 | starting at `lfree` and stopping at the end minus the size skips no candidate: the first fit, or nothing fits |
| MemHeap.Heap.AdjustLfree | lwip/src/core/mem.c:588-610 | `lfree` is the lowest free block again |
| MemHeap.Heap.Malloc | lwip/src/core/mem.c:493-633 | first fit and complete: the lowest free block with enough bytes, split exactly where the rest is of use, and NULL only for size 0, an oversized request, or when no free block has enough |
| MemShared.Interference | lwip/src/core/mem.c:523-633 | with frees and trims in every window, on layouts: a valid tiling and no free block below `lfree` at every step, `lfree` exact on return, a block that was the first fit when taken, NULL only if nothing fits at that instant, and a heap as if the call had happened at one point |
| MemShared.NextInv | lwip/src/core/mem.c:523-633 | every step of either context keeps the invariant behind it |
| MemShared.Progress | lwip/src/core/mem.c:531-626 | the call is never stuck, and comes closer to its end with every step unless the other context disturbed it |
| MemInterrupt.Scan | lwip/src/core/mem.c:523-560 | the scan over the headers, with any frees and trims in every window: it finds the first fit of that instant, or nothing fits, in the heap that these lead to |
| MemInterrupt.Adjust | lwip/src/core/mem.c:587-612 | on the headers and under the same interference, `lfree` is the lowest free block again |
| MemInterrupt.Malloc | lwip/src/core/mem.c:493-633 | the same result as on layouts, with the links, flags and statistics of all headers right: the heap is the one to which the calls of the other context lead, each made if it may be made when its turn comes, with the whole allocation between those of the scan and those behind it |
| Ring.SlotIsMod | lwip/src/arch/lpc18xx_43xx_emac.c:480-486 | an index that wraps to 0 at the end is the count modulo the ring length |
| EmacTx.Driver.constructor | lwip/src/arch/lpc18xx_43xx_emac.c:336-361 | `lpc_tx_setup` establishes the invariant |
| EmacTx.Driver.FillFrame | lwip/src/arch/lpc18xx_43xx_emac.c:446-501 | all slots of a frame are filled while the first stays the driver's, whatever the DMA engine does meanwhile, which takes as many slots as it can of earlier frames |
| EmacTx.Driver.Output | lwip/src/arch/lpc18xx_43xx_emac.c:365-519 | after waiting for enough free descriptors the frame is queued behind all others, its chain referenced once, and until the last write the DMA engine has taken no slot of it; when it still waits, all that was released is reclaimed and it is too little |
| EmacTx.Driver.Reclaim | lwip/src/arch/lpc18xx_43xx_emac.c:732-801 | all slots that the DMA engine has released are free again, also those it releases meanwhile; the indices and the free count stay in step |
| EmacTx.Driver.Freed | lwip/src/arch/lpc18xx_43xx_emac.c:739-793 | each chain is referenced once and freed once, in order, and never before its last slot was released |
| EmacTx.Driver.Sent | lwip/src/arch/lpc18xx_43xx_emac.c:446-509 | the DMA engine takes the slots in send order, with FS and LS exactly on the first and last slot of each frame, IC on the last, and CIC on all |
| EmacTx.Run | lwip/src/arch/lpc18xx_43xx_emac.c:336-801 | after any run of sends, waits, reclaims and DMA steps, the frames accepted and the slots taken and reclaimed are those that the events lead to: each chain sent is referenced once, a prefix of them freed once and in order, and what went out are the slots of the frames in send order |
| EmacTx.TakeKeeps | lwip/src/arch/lpc18xx_43xx_emac.c:429-509 | a step of the DMA engine, in the middle of a frame or not, keeps the ring |
| EmacTx.ReleaseKeeps | lwip/src/arch/lpc18xx_43xx_emac.c:507-509 | setting OWN of the first slot makes the whole frame the DMA engine's |
| EmacRx.Driver.QueuePbuf | lwip/src/arch/lpc18xx_43xx_emac.c:140-172 | a pbuf goes into the next slot, and belongs to the DMA engine only when all of the slot is written |
| EmacRx.Driver.RxQueue | lwip/src/arch/lpc18xx_43xx_emac.c:656-690 | new pbufs are queued until the ring is full or an allocation fails |
| EmacRx.Driver.LowLevelInput | lwip/src/arch/lpc18xx_43xx_emac.c:211-333 | the oldest slot, if the DMA engine has released it: a frame is handed up with its pbuf and length exactly if its status bits say no error, and a bad one goes back into the ring |
| EmacRx.CheckStatus | lwip/src/arch/lpc18xx_43xx_emac.c:254-292 | which status bits make a frame bad |
| EmacRx.HandedUp | lwip/src/arch/lpc18xx_43xx_emac.c:233-333 | of the frames processed, exactly those without such bits were handed up, in their order and with their lengths |
| EmacRx.Driver.EnetifInput | lwip/src/arch/lpc18xx_43xx_emac.c:693-729 | a good frame of type IP, ARP or, with PPPoE, one of its two is accepted if `netif->input` takes it, and freed otherwise, and that once |
| EmacRx.OnePlace | lwip/src/arch/lpc18xx_43xx_emac.c:140-333 | each pbuf is in one slot of the ring or was handed up once |
| EmacRx.Driver.Idle | lwip/src/arch/lpc18xx_43xx_emac.c:140-333 | frames that the DMA engine receives between calls of the driver keep the ring and the books |
| EmacRx.Run | lwip/src/arch/lpc18xx_43xx_emac.c:140-729 | after any run of arrivals, allocations and inputs, what was queued, received and handed up is what the events lead to: handed up were the good frames in ring order |
| EmacRx.Whereabouts | lwip/src/arch/lpc18xx_43xx_emac.c:140-729 | each pbuf allocated is in one slot or was handed up once, and each handed up was accepted or freed, once |
| EmacRx.ArrivedMeaning | lwip/src/arch/lpc18xx_43xx_emac.c:140-172 | the DMA engine fills waiting pbufs with the frames that arrive, in order, and loses the rest |
| EmacRx.BooksRequeue | lwip/src/arch/lpc18xx_43xx_emac.c:233-300 | dropping a bad frame loses no pbuf and keeps ring order |
| SelectList.List.Add | lwip/src/api/sockets.c:1136-1149 | the entry is on top of the list, all links right, and the counter has moved |
| SelectList.List.Remove | lwip/src/api/sockets.c:1196-1210 | the entry, wherever it was, is off the list, all links right |
| SelectScan.Selscan | lwip/src/api/sockets.c:1025-1082 | the three result sets hold exactly the sockets asked for that are ready, and the count is their size |
| SelectScan.SleepsIfNothingReady | lwip/src/api/sockets.c:1165-1168 | the count is 0 if and only if no watched socket is ready |
| SelectProtocol.NextInv | lwip/src/api/sockets.c:1136-1360 | every section of every thread and callback keeps the protocol's invariant |
| SelectProtocol.NoLostWakeup | lwip/src/api/sockets.c:1136-1360 | in every run, when no callback is under way, a thread that sleeps on a socket with data to read, room to write or an error, as it asked for, has been signalled |
| SelectProtocol.NoStaleEntry | lwip/src/api/sockets.c:1321-1358 | a callback goes on only from an entry that is still on the list, and signals no semaphore twice |
| SelectProtocol.CallbackGoesOn | lwip/src/api/sockets.c:1321-1358 | it is never stuck, and while the list does not change, each section brings it to a later entry or ends it |
| SelectProtocol.EventMeaning | lwip/src/api/sockets.c:1286-1307 | each event changes rcvevent, sendevent or errevent of its socket as its type says, and nothing else |
| SelectProtocol.RcvCounts | lwip/src/api/sockets.c:1286-1294 | over any run, rcvevent is what it was, and what arrived less what was taken |
| SelectProtocol.EventWakes | lwip/src/api/sockets.c:1136-1360 | from the event to the semaphore: once no callback runs, a thread that waits for such an event has been signalled, if data is left, or room to send |
| SelectProtocol.ArrivalWakes | lwip/src/api/sockets.c:1136-1360 | data that makes rcvevent positive wakes its reader, unless somebody takes data meanwhile |
| SelectProtocol.WokenForReason | lwip/src/api/sockets.c:1321-1347 | a thread is signalled only for a socket that has an event it asked for |
| SelectProtocol.TakenFirst | lwip/src/api/sockets.c:1321-1358 | a run in which data is taken before the callback comes to a waiting thread, which is not signalled |
| SocketRecv.Socket.Conservation | lwip/src/api/sockets.c:556-739 | what was returned, then the unread part of `lastdata`, is what was received, octet by octet; every other pbuf is freed, once and in order |
| SocketRecv.Socket.Recvfrom | lwip/src/api/sockets.c:556-739 | a call returns the next octets of the stream and opens the window by as many; a short count means that nothing was left; after which pass it returns, goes on or waits; errors are reported only if nothing was copied, and which |
| SocketRecv.PeekThenRead | lwip/src/api/sockets.c:715-738 | what is peeked at comes back from the next call, and the window is opened both times |
| Netconn.Conn.DoWritemore | lwip/src/api/api_msg.c:1207-1333 | `tcp_write` gets as much as is left, fits 65535 octets and has room; the thread goes on when that is all or it must not wait, and is told how much; or its time is up, or it tries again, or it is told that nothing was written |
| Netconn.WriteOnMeaning | lwip/src/api/api_msg.c:1226-1327 | the same of the machine |
| Netconn.WriteProgress | lwip/src/api/api_msg.c:1207-1333 | a blocking write goes out exactly as there is room, callback by callback |
| Netconn.WriteFinishes | lwip/src/api/api_msg.c:1207-1333 | the first callback with room for the rest ends it, and the thread is told that all went out |
| Netconn.WriteBound | lwip/src/api/api_msg.c:1207-1333 | with room for m octets each time, it takes at most as many callbacks as the rest has pieces of m |
| Netconn.Conn.DoWrite | lwip/src/api/api_msg.c:1342-1389 | refuses with ERR_CONN, ERR_INPROGRESS or the fatal error, or starts a write with its first slice |
| Netconn.Conn.DoClose | lwip/src/api/api_msg.c:1450-1482 | refuses with ERR_INPROGRESS, ERR_VAL or ERR_CONN, or closes now or later; the pcb is gone if both directions are, and stays after a shutdown of one |
| Netconn.Conn.DoCloseInternal | lwip/src/api/api_msg.c:746-822 | on success the thread is signalled and, for both directions, the pcb is gone; on failure nothing changes |
| Netconn.Conn.DoDelconn | lwip/src/api/api_msg.c:831-888 | as a close of both directions, from a non-blocking connect too, where it is done at once; the pcb is gone |
| Netconn.Conn.DoConnect | lwip/src/api/api_msg.c:983-1032 | refuses, waits, or answers at once if non-blocking |
| Netconn.Conn.DoConnected | lwip/src/api/api_msg.c:936-973 | the connecting thread is signalled if there is one |
| Netconn.Conn.DoListen | lwip/src/api/api_msg.c:1063-1110 | answers at once; a pcb is lost if the mailbox cannot be had |
| Netconn.Conn.Carry | lwip/src/api/api_msg.c:276-337 | the sent and poll callbacks carry on a write or a close, and nothing else |
| Netconn.Conn.ErrTcp | lwip/src/api/api_msg.c:346-404 | the pcb is gone, and whoever waits is signalled with the error |
| Netconn.KeptByFinish | lwip/src/api/api_msg.c:1314-1327 | signalling the current message accounts for it once, and for what it sent |
| Netconn.KeptBySlice | lwip/src/api/api_msg.c:1272-1301 | an accepted slice continues the stream where the message stands |
| Netconn.Handle | lwip/src/api/api_msg.c:276-1482 | every event does what the machine says and keeps: each message is signalled once or being worked on; one is being worked on exactly if the state says so; and TCP has been given exactly the slices of the messages, a successful blocking write in full unless its time was up. An assertion fails exactly when a write, close or delete begins after a write ended halfway |
| Netconn.Run | lwip/src/api/api_msg.c:276-1482 | after any run the netconn is as its events make it, and an assertion has failed if and only if a write, close or delete began when the last write before it had been ended halfway by the send timeout |
| Netconn.OnceEach | lwip/src/api/api_msg.c:276-1482 | after any run each message that arrived has been signalled exactly once, or is the one being worked on, which there is if and only if the state says so; what threads were told is what TCP was given |
| Netconn.Told | lwip/src/api/api_msg.c:276-1482 | whatever a thread is told concerns the message it sent: the numbers of messages are their places among those that arrived |
| Netconn.CutShort | lwip/src/api/api_msg.c:1226-1239 | a run in which the send timeout ends a write after one octet, and the next message meets a failing assertion |
| DhcpClient.Client.constructor | lwip/src/core/dhcp.c:628-700 | `dhcp_start` on an interface that is down |
| DhcpClient.Client.Bind | lwip/src/core/dhcp.c:926-1014 | the interface is up under the offered address, with the timers of the lease |
| DhcpClient.Client.Timeout | lwip/src/core/dhcp.c:401-457 | the next try, or the end of waiting: discovery with the interface down, or a bound address after an ARP check |
| DhcpClient.Client.FineTmr | lwip/src/core/dhcp.c:368-391 | a waiting client loses exactly one tick of patience |
| DhcpClient.Client.CoarseTmr | lwip/src/core/dhcp.c:336-360 | renewal and rebinding start when their counters pass 1; a counter at 0 starts over |
| DhcpClient.Client.Renew | lwip/src/core/dhcp.c:1021-1068 | the address stays; the time to the next try, which is 0 once the counter of tries is |
| DhcpClient.Client.HandleOffer | lwip/src/core/dhcp.c:251-272 | an offer is taken with its server, or dropped with the timer stopped |
| DhcpClient.Client.Recv | lwip/src/core/dhcp.c:1596-1627 | what each reply does in each state, with the times of the lease, that all others are ignored, and which replies make the client take 0.0.0.0 |
| DhcpClient.Client.NetworkChanged | lwip/src/core/dhcp.c:765-794 | the interface is down; a leased address is verified, everything else starts over |
| DhcpClient.Handle | lwip/src/core/dhcp.c:197-1212 | what each event does to the client; exactly which make it take 0.0.0.0 for an address, and exactly which bind the interface to it |
| DhcpClient.Run | lwip/src/core/dhcp.c:197-1212 | after any run the client is as its events make it; the interface is up only when bound, renewing or rebinding, under the offered address; it is up as 0.0.0.0 after an event that binds it so, never without one, and never unless 0.0.0.0 was taken from a server or a renewal was asked for without an offer |
| DhcpClient.FullPatience | lwip/src/core/dhcp.c:401-457 | without an answer, a request is given up after 244 half seconds, a rebinding after 90, a verification after 6, and an ARP check is over after 2 |
| DhcpClient.DiscoveryRepeats | lwip/src/core/dhcp.c:908-916 | an unanswered discovery is repeated after 4, 8, 16, 32 and 64 half seconds and then every minute |
| DhcpClient.WaitMeaning | lwip/src/core/dhcp.c:401-457 | what the end of a wait for an answer leads to, by state and number of tries |
| DhcpClient.MinutesMeaning | lwip/src/core/dhcp.c:940-973 | the counters of a lease are its times in minutes, rounded, with their bounds and their wrap |
| DhcpClient.RenewsInTime | lwip/src/core/dhcp.c:336-360 | a bound client renews when t1 minutes are over and not before |
| DhcpClient.RebindsInTime | lwip/src/core/dhcp.c:336-360 | without a renewal time it rebinds when t2 minutes are over and not before |
| DhcpClient.Unanswered | lwip/src/core/dhcp.c:401-457 | a client that gets no answer stops waiting after exactly that time, without its address unless the wait was for ARP |
| DhcpClient.RenewTooEarly | lwip/src/core/dhcp.c:1022-1068 | a run that binds the interface to 0.0.0.0 |
| DhcpClient.Stalled | lwip/src/core/dhcp.c:1622-1627 | a run after which no timer brings the client out of discovery, in whatever order the two timers run |
| DhcpClient.RenewalGivenUp | lwip/src/core/dhcp.c:1021-1068 | a run in which renewal has been tried 256 times and is not tried again, long before rebinding |
| DhcpOptions.ParseOptions | lwip/src/core/dhcp.c:1364-1488 | the loop ends, and leaves what one pass over the field gives, or fails |
| DhcpOptions.DecodeWords | lwip/src/core/dhcp.c:1444-1471 | a list of words fills consecutive entries up to one that is taken |
| DhcpOptions.ReadMeaning | lwip/src/core/dhcp.c:1364-1488 | for every well-formed field that ends in END, whatever follows: first occurrences win, pads and unknown codes are skipped, name servers are capped; it is refused if and only if a known option has a length its code does not allow |
| DhcpOptions.Understood | lwip/src/core/dhcp.c:1390-1471 | which lengths are accepted, and which option, read as a number of which octets, each entry comes from |
| DhcpOptions.LookupMeaning | lwip/src/core/dhcp.c:1444-1471 | of several options with one code the first counts |
| DhcpOptions.Message.Add | lwip/src/core/dhcp.c:1268-1283 | one option is appended |
| DhcpOptions.Message.AddLong | lwip/src/core/dhcp.c:1294-1301 | one option with a 32-bit value is appended |
| DhcpOptions.Message.Trailer | lwip/src/core/dhcp.c:1756-1768 | the length is at least 68, a multiple of 4 as far as there is room, never past the field; and whatever was written is read back |
| DhcpOptions.Message.Select | lwip/src/core/dhcp.c:282-331 | the request fits the smallest field, and is, octet by octet and as any reader finds it, a request for the offered address to that server, with the message size and the four parameters asked for |
| DhcpOptions.OctetsBack | lwip/src/core/dhcp.c:1294-1301 | four octets written are the value read |
| Dns.CheckCounts | lwip/src/core/dns.c:653-687 | a check brings a query one second closer to its end, also when it changes servers, and ends it when one second is left |
| Dns.Deadline | lwip/src/core/dns.c:635-725 | a callback is called at most once, and exactly once by seven seconds per server in reach |
| Dns.AnswerStays | lwip/src/core/dns.c:695-703 | an answer stays for as many seconds as its time to live says, or 2^32 if that is 0 |
| Dns.CachedOverRun | lwip/src/core/dns.c:635-914 | the same over any run in which no query takes its slot |
| Dns.Resolver.CheckEntry | lwip/src/core/dns.c:635-712 | an entry's next state, and its callback if it expires |
| Dns.Resolver.CheckEntries | lwip/src/core/dns.c:717-725 | one second for the whole table, and the callbacks of the entries that expire, in their order |
| Dns.Resolver.Recv | lwip/src/core/dns.c:732-849 | an answer to a pending query calls its callback and completes it, with its time to live up to a week, or frees it; anything else changes nothing |
| Dns.Resolver.Enqueue | lwip/src/core/dns.c:859-914 | takes the first unused entry or the first completed one that is as old as any, never a pending one; the entry it makes; and when exactly it fails |
| Dns.TakesMeaning | lwip/src/core/dns.c:868-897 | the slot taken: the lowest unused one, else the first completed one with the lowest number below the next, else slot 0 |
| Dns.Refuses | lwip/src/core/dns.c:859-914 | a run in which a query is refused although an entry is completed |
| Dns.Run | lwip/src/core/dns.c:635-914 | the deadline over any interleaving of queries, seconds and answers, in the state and at the time to which these lead |
| Dns.MovesOneWay | lwip/src/core/dns.c:635-914 | what an event does to the table, the callbacks and the clock is determined |
| Memp.Pools.constructor | lwip/src/core/memp.c:337-375 | each pool's elements are all on its free list |
| Memp.Pools.Malloc | lwip/src/core/memp.c:389-426 | the first free element of the pool is handed out, or NULL if there is none |
| Memp.Pools.Free | lwip/src/core/memp.c:434-468 | the element is back, the pool still parted into an acyclic list and the live elements, and `memp_sanity` returns 1 |
| Memp.Floyd | lwip/src/core/memp.c:187-196 | ends on every shape of list, and tells exactly whether it is cyclic |
| Memp.FloydMeets | lwip/src/core/memp.c:187-196 | on a list that does not end, the walkers meet within as many steps as there are elements |
| Memp.Pools.Sanity | lwip/src/core/memp.c:181-199 | 0 if and only if some list is cyclic |
| Memp.ChainEnds | lwip/src/core/memp.c:181-199 | a free list that runs through distinct elements is not cyclic |
| Crc16.TableEntry | src/comm/CRC16.C:4-37 | each of the 256 entries is eight steps of the division |
| Crc16.OctetStep | src/comm/CRC16.C:39-42 | one lookup does what eight bit-serial steps do |
| Crc16.CalcBlockCRC16i | src/comm/CRC16.C:57-64 | the loop is the octet step for each octet |
| Crc16.BlockIsRemainder | src/comm/CRC16.C:57-64 | the result is the remainder of the message behind the initial value by x^16 + x^12 + x^5 + 1, and nothing else is |
| Crc16.DivisionUnique | src/comm/CRC16.C:57-64 | quotient and remainder are unique |
| Crc16.UpdatesAreBlock | src/comm/CRC16.C:44-64 | the other form gives the checksum of the message and two zero octets |
| Crc16.DetectsBurst | src/comm/CRC16.C:57-64 | messages that differ only within two consecutive octets have different checksums |
| Crc16.BurstBits | src/comm/CRC16.C:57-64 | and so do those that differ only within 16 consecutive bits |

## Left out

- The pool variant of `mem.c`, `mem_calloc`, and the statistic of the highest use: they add easy members.
- MemHeap.Heap.Malloc: nothing is freed or trimmed meanwhile; that is MemShared and MemInterrupt.
- MemShared.Interference: a thread that frees in a window runs `mem_free` or `mem_trim` as one step, since both hold the heap protected throughout. The headers and the statistics are in MemInterrupt.Malloc, where the calls made in a window follow one another.
- EmacTx.Driver.Output: a call that waits for descriptors goes on as long as another task reclaims some (`waiting`); one that is left waiting has `sent` false, and what it will do is covered by a longer `waiting`. Buffer chaining through B2ADD, the copy of frames in slow memory and hardware registers are not modelled.
- EmacRx.Driver.EnetifInput: link state, statistics and the contents of frames are not modelled.
- Allocation and closing of sockets while a select is waiting for them: `tryget_socket` finds the same sockets throughout.
- SelectProtocol.NoLostWakeup: the counters `select_cb_ctr`, `select_waiting` and `rcvevent` are unbounded, their wrap-around is not modelled; time-outs are wake-ups at any time.
- SocketRecv.Socket.Recvfrom: TCP only; the datagram half hands over one netbuf per call. The sender's address is not modelled.
- SocketRecv.Socket.Recvfrom: a call that is blocked has no result yet; what it will do is covered by a longer `env`.
- Netconn.Run: the events that `API_EVENT` raises for select, the mailboxes, and LWIP_TCPIP_CORE_LOCKING are not modelled. In the middle of a write `tcp_write` fails only for lack of memory, and `tcp_close` does not fail for a pcb that listens or connects, as in `tcp_out.c` and `tcp.c`. When the send timeout has passed is a parameter. The queue between threads and the core is reduced to the order in which messages arrive.
- DhcpClient.Client.Recv: matching of hardware address and transaction number comes before; gateway, netmask, name servers and AutoIP are not modelled, nor is `dhcp_stop`.
- DhcpOptions.ParseOptions: options in one piece, no further options in the file and sname fields (the value of the overload option is reported, and where it points is not read), and so short that the 16-bit offset does not wrap; a message in several pbufs is not modelled.
- DhcpOptions.Message.Add: `dhcp_option_short` and the host name option are written by it, octet by octet.
- Dns.Run: callbacks do not call back into the resolver, server 0 is configured, and the servers do not change during a run. Names and the format of answers are not modelled: an answer is unreadable, bad or good.
- Memp.Pools.Free: elements are numbers; alignment and the overflow check of MEMP_OVERFLOW_CHECK are not modelled.
