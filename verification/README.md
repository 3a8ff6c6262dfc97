# Verified models of the G-OS kernel

G-OS is a small i386 kernel. This project models the parts of it whose correctness rests on state
kept over whole runs, and proves what they promise for every input and every run:

- **Address spaces** (`Bits`, `BuddyTiling`, `BuddyAllocator`, `AddressSpaces`, `SpaceCopies`,
  `VirtualMemory`, `EagerCopy`, `PageRanges`). Copy-on-write fork over the buddy allocator. Over every
  run the processes read what they would read if fork had copied all memory; the reference counts are
  exact; no frame leaks; the free blocks of the allocator are a function of the allocated ones; every process
  keeps its own kernel stack and the kernel's low memory mapped.
- **TCP data path** (`Rings`, `TcpReceive`, `TcpReassembly`,
  `TcpStaleByte`, `TcpSend`, `TcpCongestion`). The receive ring with marks for bytes ahead of
  a hole, the segmenter, the send window, and the two ends joined: what the reader gets is a prefix of
  what the writer wrote. What losses make the sender send again, how much of its window it uses, and how the
  congestion window moves, against RFC 5681.
- **ext2** (`Ext2Blocks`, `Ext2Directory`, `Ext2Runs`, `Ext2Read`). Directory blocks, byte by byte, as a
  map from names to inodes, over every run of operations; the DMA read with merged runs against the block-at-a-time read.
- **Scheduler and semaphore** (`Scheduling`, `Turns`, `Semaphores`). Ten run queues and a hand-off semaphore as
  step systems with invariants over every interleaving; the order in which waiting processes get their turns.
- **Hash table and kernel heap** (`Hashtable`, `Pools`, `Kmalloc`).
- **Internet checksum** (`Checksum`), after RFC 1071.

`Basics` holds the few notions that several of these share.

Each stateful part is a class whose methods follow the source's loops and updates. A method is proved
against a function on values (`State()`, `Abs()`, `Contents()` before and after); the laws are lemmas
about those functions. The allocator, the address spaces and the fork are one stack: `Vm` calls
`PageAllocator`, `AlignedHeap` calls `Heap` and `Hashtable.Table`, `Semaphore` calls `Scheduler`.

Several promises turn out to hold only under a condition. Each is stated as an if-and-only-if with
that condition, next to an input, or a family of inputs, where it fails:

- a segment that completes the whole receive ring in one scan leaves every mark set, and a later read
  can return a byte that never arrived (`TcpReceive.AcceptSound`, `TcpStaleByte.FullRingDeliversStaleByte`);
- a segment that fills a gap does not make the bytes behind it readable while earlier bytes are unread
  (`TcpReceive.FillingAdvances`, `TcpReassembly.GapStalls`);
- an enqueue that passes the end of the send ring stores the wrong bytes (`TcpSend.EnqueueStores`);
- the retransmission after the third duplicate acknowledgement may send bytes that are not queued
  (`TcpSend.UpdateSndSound`, `TcpSend.ShortRetransmission`);
- a segment sent on a first duplicate makes the third one open the congestion window where it should halve it
  (`TcpCongestion.LimitedTransmitInflates`);
- an acknowledgement older than the window does not move the left edge to itself but before itself, or,
  for zero, to the end of the sequence space (`TcpSend.StaleAckMovesBack`);
- doubling the hash table turns the values of a repeated key upside down (`Hashtable.PutKeepsLookup`);
- the end of a timed sleep queues a process a second time if something woke it before
  (`Scheduling.ExpireExact`, `Scheduling.ExpireBreaks`); schedule would leave process 0 current and
  unqueued if it slept, which it never does in this kernel (`Scheduling.ScheduleExact`; the input of
  `Scheduling.IdleSleepBreaks` is hypothetical);
- the waiting processes of the first occupied queue get their turns in order only if none of those that make
  room for them belongs on a better queue (`Turns.RoundRobin`);
- a clock tick between a process' sleep and the switch away from it spoils the priority it gets on waking
  (`Turns.TickSpoilsCredit`);
- deletion from a directory goes by inode, so of two names for one inode the wrong one may go
  (`Ext2Directory.DeleteFinds`); a new directory records only sixteen bits of the two inode numbers
  (`Ext2Directory.DotsFound`, `Ext2Directory.DotNamesRoot`);
- a mapped range that touches more page directories than its size needs is mapped wrongly
  (`PageRanges.MapsWanted`).

Where comments and code disagree the model follows the code: the comment on the semaphore speaks of a
mutex initialised to zero, the code hands out as many permits as the count it is given; the send
window's flight size is the unsigned difference that the code computes.

## Model

| member | source | states |
|---|---|---|
| `Bits.XorIsBuddy` | memory_manager/buddy.c:155-156 | for an aligned block, address XOR size is the neighbour that shares its parent |
| `Bits.AndOfBuddies` | memory_manager/buddy.c:166-169 | the AND of two buddies is the lower one, the head of the merged block |
| `Bits.BuddyFacts` | memory_manager/buddy.c:155-171 | the buddy is aligned, has the block as its own buddy, and the two make up one aligned block of twice the size |
| `BuddyTiling.InitialGood` | memory_manager/buddy.c:11-44 | the initial top-order blocks tile memory, are coalesced, and none is allocated |
| `BuddyTiling.BuddyIsHead` | memory_manager/buddy.c:153-171 | the buddy of a block below the top order is the head of a block of at most that order, so a stale order entry is never read |
| `BuddyTiling.SplitGood` | memory_manager/buddy.c:90-106 | splitting keeps the tiling aligned, disjoint, covering and maximally coalesced |
| `BuddyTiling.MergeGood` | memory_manager/buddy.c:153-183 | merging with a free buddy keeps all of that |
| `BuddyTiling.TakeGood` | memory_manager/buddy.c:86-89 | taking a free block keeps all of that |
| `BuddyTiling.GiveGood` | memory_manager/buddy.c:172-183 | freeing a block whose buddy is not free keeps all of that |
| `BuddyTiling.LiveDisjoint` | memory_manager/buddy.c:46-116 | two allocated blocks never overlap |
| `BuddyTiling.FreeSetDetermined` | memory_manager/buddy.c:46-185 | two reachable states have the same allocated blocks if and only if they are the same, free blocks included |
| `BuddyTiling.AllFreedIsInitial` | memory_manager/buddy.c:118-185 | with nothing allocated exactly the initial top-order blocks are free |
| `BuddyTiling.PagesPartition` | memory_manager/buddy.c:46-185 | every page is free or allocated, never both |
| `BuddyTiling.Conservation` | memory_manager/buddy.c:187-206 | pages counted from the free lists plus allocated pages are all pages |
| `BuddyTiling.FreePagesShrink` | memory_manager/buddy.c:46-116 | an allocation of order k lowers the number of free pages by two to the k |
| `BuddyAllocator.BuddyTest` | memory_manager/buddy.c:155-159 | what the loop tests on the tables holds if and only if the buddy is a free block of the same order |
| `BuddyAllocator.PageAllocator.constructor` | memory_manager/buddy.c:11-44 | the tables and lists describe the initial tiling of all whole top-order blocks |
| `BuddyAllocator.PageAllocator.OrderFor` | memory_manager/buddy.c:62-65 | the smallest order whose blocks hold the size |
| `BuddyAllocator.PageAllocator.Alloc` | memory_manager/buddy.c:46-116 | one block of the smallest sufficient order becomes allocated and nothing else changes; it fails if and only if every sufficient list is empty, and then changes nothing |
| `BuddyAllocator.PageAllocator.Free` | memory_manager/buddy.c:118-185 | the block and only it stops being allocated; the tables describe a coalesced tiling again, and the free block that now holds it stands first on its list |
| `BuddyAllocator.PageAllocator.FreeAll` | memory_manager/buddy.c:118-185 | freeing all blocks in any order restores the initial tiling |
| `BuddyAllocator.PageAllocator.FreeMem` | memory_manager/buddy.c:187-206 | the result is the free bytes, and with the allocated bytes it is all managed memory |
| `AddressSpaces.RefCount` | virtual_memory/vm.c:109-169 | how one page table entry's change moves the number of entries that name a frame |
| `AddressSpaces.NamesCounted` | virtual_memory/vm.c:109-169 | a frame named by a user entry is allocated and its count is the number of entries naming it |
| `AddressSpaces.SoleNoRival` | virtual_memory/vm.c:440-457 | a writable entry is the only one for its frame |
| `AddressSpaces.ProtectInv` | virtual_memory/vm.c:109-169 | removing write permission keeps exact counts and sole writers |
| `AddressSpaces.ShareInv` | virtual_memory/vm.c:109-169 | a second read-only entry with the count raised keeps them |
| `AddressSpaces.DropInv` | virtual_memory/vm.c:214-252 | dropping an entry, and the frame with its last one, keeps them |
| `AddressSpaces.FillInv` | virtual_memory/vm.c:426-439 | mapping a new frame writable with count one keeps them |
| `AddressSpaces.TakeOverInv` | virtual_memory/vm.c:440-457 | making the only entry for a frame writable keeps them |
| `AddressSpaces.StoreInv` | virtual_memory/vm.c:440-457 | a store through a writable entry changes one page of one process and keeps them |
| `AddressSpaces.DropContents` | virtual_memory/vm.c:214-252 | dropping an entry changes what is read there and nowhere else |
| `VirtualMemory.ExactCounts` | virtual_memory/vm.c:109-457 | in every valid state a frame's count is the number of user entries naming it, positive if and only if it is an allocated user frame, and a writable entry is the only one |
| `VirtualMemory.Vm.Clone` | virtual_memory/vm.c:82-180 | the child reads the parent's user pages, nobody else's view changes, all invariants hold; the child maps low memory as the parent does and its kernel stack's two pages in order, and the kernel's entries in all other tables stay |
| `VirtualMemory.Vm.Fork` | scheduler/scheduler.c:369-405 | kernel stack and clone together; it fails if and only if no block is left for the stack, and then changes nothing; every process, the child included, has its own kernel stack mapped |
| `VirtualMemory.Vm.StackMap` | virtual_memory/vm.c:108-108 | the two pages of the kernel stack go to entries 1021 and 1022 in order, all user entries stay |
| `VirtualMemory.Vm.LowMap` | virtual_memory/vm.c:102-106 | the first 256 entries are those given, all others stay |
| `VirtualMemory.HomesKept` | virtual_memory/vm.c:82-252 | whatever happens to user pages and to other processes, a process keeps its kernel stack and low memory mapped |
| `VirtualMemory.ForkHomes` | virtual_memory/vm.c:82-180 | after a clone every process, the child included, has its kernel stack mapped, and all map low memory alike |
| `VirtualMemory.Vm.Read` | virtual_memory/vm.c:385-470 | what a process reads is the content of the frame its tables name |
| `VirtualMemory.Vm.CopyOnWrite` | virtual_memory/vm.c:440-457 | after the write fault the entry is writable and no process reads anything different |
| `VirtualMemory.Vm.Write` | virtual_memory/vm.c:440-457 | a store is seen at that page of that process and nowhere else |
| `VirtualMemory.Vm.Demand` | virtual_memory/vm.c:426-470 | a demand fault adds the page there and nothing elsewhere, making the page table if needed |
| `VirtualMemory.Vm.FreeUserSpace` | virtual_memory/vm.c:203-262 | the process loses all its user pages and tables, no other process loses anything |
| `VirtualMemory.Vm.Exit` | virtual_memory/vm.c:189-262 | directory, tables and stack go back, and every other process reads what it read |
| `VirtualMemory.Vm.ForkThenExit` | virtual_memory/vm.c:82-262 | a clone is made unless no block is left for a stack, and after its exit the allocator, the frames and every view are as they were |
| `VirtualMemory.NothingLeaks` | virtual_memory/vm.c:82-262 | from any state through any clone and its release, the allocator has the same blocks, free ones included, and the same pages are in use |
| `VirtualMemory.FreeIsRest` | virtual_memory/vm.c:82-470 | in every valid state the free pages are all pages but one for each directory, table and user frame, two for each stack, and those of the rest of the kernel |
| `EagerCopy.RefinesFork` | virtual_memory/vm.c:82-180 | sharing at fork refines copying every page |
| `EagerCopy.RefinesStore` | virtual_memory/vm.c:440-457 | a store under copy-on-write refines a store to private memory |
| `EagerCopy.RefinesExec` | virtual_memory/vm.c:203-262 | releasing the user half refines forgetting the process's pages |
| `EagerCopy.RefinesExit` | virtual_memory/vm.c:189-201 | releasing a process refines removing its memory |
| `EagerCopy.Step` | virtual_memory/vm.c:385-470 | each operation answers as the eager reference does; it finds no memory if and only if the pages it needs, or a block for a stack, are missing; it takes exactly those pages; loads and refusals change nothing |
| `EagerCopy.Run` | virtual_memory/vm.c:82-470 | every sequence of forks, loads, stores, faults, execs and exits answers as with eager copies, refusing for lack of memory exactly the operations that are short of it |
| `EagerCopy.RunKeepsPages` | virtual_memory/vm.c:82-470 | over every run free pages and pages of directories, tables, frames and stacks add up to the same number |
| `EagerCopy.Boot` | kmain.c:108-140 | the first process starts in a state that the refinement covers, with its kernel stack and the given low memory mapped, unless no block is left for its stack |
| `PageRanges.MapsWanted` | virtual_memory/vm.c:264-329 | the entries written are exactly the pages of the range, in order, if and only if the range touches as many directories as pd_count |
| `PageRanges.SpanBounds` | virtual_memory/vm.c:279-286 | a range touches pd_count directories or one more |
| `PageRanges.OnePage` | virtual_memory/vm.c:426-470 | the single page of a fault is always mapped |
| `PageRanges.StraddleMapsNothing` | virtual_memory/vm.c:279-310 | two pages across a directory boundary: no entry is written |
| `PageRanges.AssignedRange` | virtual_memory/vm.c:322-327 | consecutive pages get consecutive frames and no other entry changes |
| `PageRanges.PageDirectory.MapRange` | virtual_memory/vm.c:264-329 | the two loops write those entries in that order and make the missing page tables |
| `Rings.PutAt` | network/tcp.c:575-632 | a position stored in the ring is read back at its slot |
| `Rings.PutWrapped` | network/tcp.c:602-605 | storing in two parts around the end is storing position by position |
| `Rings.GetWrapped` | network/tcp_socket.c:288-300 | reading in two parts around the end is reading position by position |
| `TcpReceive.AcceptSound` | network/tcp.c:153-248 | a segment keeps the queue's invariant if and only if it does not complete the whole ring in one scan |
| `TcpReceive.FillsRingIsFullScan` | network/tcp.c:172-231 | that condition on marks and segment is the scan reaching all the way around |
| `TcpReceive.AdvanceFills` | network/tcp.c:187-231 | in that case nothing is cleared and every mark goes stale |
| `TcpStaleByte.FullRingDeliversStaleByte` | network/tcp.c:153-248 | a run of five events in which a byte is delivered that never arrived |
| `TcpReceive.AcceptHas` | network/tcp.c:544-632 | a segment adds exactly its own positions to those the queue has, and its bytes to the ring |
| `TcpReceive.SegmentTaken` | network/tcp.c:544-632 | a segment with data between nxt_rcv and the end of the window is stored byte for byte; any other leaves the queue alone |
| `TcpReceive.AcceptAdvances` | network/tcp.c:153-248 | with a hole and unread bytes nxt_rcv stays; otherwise it moves to the first missing byte |
| `TcpReceive.FillingAdvances` | network/tcp.c:153-248 | a segment that continues at nxt_rcv moves it if and only if there is no hole or everything before was read |
| `TcpReceive.ReadDelivers` | network/tcp_socket.c:263-303 | a read gives at most what was asked for, less only if it leaves nothing in order, byte for byte from the ring, and changes nothing but the window |
| `TcpReceive.ReadSound` | network/tcp_socket.c:263-303 | a read removes exactly the positions it returns |
| `TcpReassembly.Reassembly` | network/tcp.c:544-632 | for any reordered, repeated or overlapping segments of one stream, all bytes read are a prefix of the stream, and the window accounting holds |
| `TcpReassembly.EveryRead` | network/tcp_socket.c:263-303 | every read of a run gives what was asked for or all there is in order, and it is the next stretch of the stream |
| `TcpReassembly.GapStalls` | network/tcp.c:153-248 | bytes 0, 2, 1 of a stream into a ring of four: all have arrived, and only the first can be read |
| `TcpReassembly.NothingInvented` | network/tcp.c:153-248 | nxt_rcv never passes a byte that no segment carried |
| `TcpReceive.WindowConserved` | network/tcp.c:187-242 | window, readable bytes and marked bytes make up the ring, so the window never underflows |
| `TcpReassembly.EmptySound` | network/tcp.c:46-68 | a new queue satisfies the invariant for every stream |
| `TcpReceive.ReceiveQueue.UpdateByScan` | network/tcp.c:153-232 | scan and clearing loops do what the specification's advance does |
| `TcpReceive.ReceiveQueue.Receive` | network/tcp.c:544-632 | accepting data, with the window test and both copies, is one specified step; it reports new data if and only if the segment was taken and something can be read |
| `TcpReceive.ReceiveQueue.Dequeue` | network/tcp_socket.c:263-303 | reading data is one specified step: as many bytes as asked for, or all there are in order, and nothing but the window changes |
| `TcpSend.SegmentsWhole` | network/tcp.c:994-1055 | segments have consecutive sequence numbers, are at most SMSS long, and together carry exactly the ring bytes asked for |
| `TcpSend.UpdateSndSound` | network/tcp.c:820-969 | order and bounds are kept, new data stays inside the window, and what is sent is queued if and only if it is not a short third-duplicate retransmission |
| `TcpSend.ShortRetransmission` | network/tcp.c:743-969 | a run from a new connection: the peer advertises a window, one byte is written and sent, and at the third duplicate acknowledgement a whole segment goes out that the queue does not hold |
| `TcpSend.AckSound` | network/tcp.c:743-818 | an acknowledgement keeps wnd_min, nxt_snd, cur in order and SMSS <= cwnd <= TCP_SND_SIZE |
| `TcpSend.TimeoutSound` | network/tcp.c:1065-1074 | a timeout keeps them and sets cwnd to SMSS |
| `TcpSend.TimeoutSends` | network/tcp.c:1065-1074 | after a timeout the bytes from the left edge go out again: the least of SMSS, the peer's window and what is queued |
| `TcpSend.StaleAckMovesBack` | network/tcp.c:854-857 | the left edge moves to the acknowledgement if and only if that is not older than the edge; otherwise to just before it, and for zero to 2^32 - 1 |
| `TcpSend.EnqueueStores` | network/tcp_socket.c:384-399 | the ring holds the data if and only if the data does not pass the ring's end or repeats itself there |
| `TcpSend.WrapRepeatsData` | network/tcp_socket.c:394-397 | two bytes around the end of a ring of four: the first lands in the last slot and in the first |
| `TcpSend.EmittedCut` | network/tcp.c:994-1055 | segments cut from queued bytes are segments of the written stream |
| `TcpSend.ActSound` | network/tcp.c:743-1074 | every action keeps order and bounds, whatever the data, if acknowledgements name sent bytes, and what it sends for the first time ends inside the window and the queued bytes |
| `TcpSend.PointersSafe` | network/tcp.c:743-1074 | over every run with such acknowledgements wnd_min, nxt_snd, cur and the ring end stay in order, SMSS <= cwnd <= TCP_SND_SIZE, the left edge never moves back, and data sent for the first time ends inside the window of that moment |
| `TcpSend.ActKeeps` | network/tcp.c:743-1074 | write, acknowledgement and timeout keep the ring's contents, the order and the bounds |
| `TcpSend.SenderSafe` | network/tcp.c:743-1074 | over every run the invariant holds and every segment sent is cut from the written stream |
| `TcpSend.EndToEnd` | network/tcp.c:153-1055 | whatever order and multiplicity the sent segments arrive in, the reader gets a prefix of what was written |
| `TcpSend.SendQueue.constructor` | network/tcp.c:24-107 | a new connection has one segment of window and an empty ring, and so holds the empty part of every stream |
| `TcpSend.FromConnect` | network/tcp.c:24-107 | from new connections on both sides, the reader gets the beginning of what was written |
| `TcpSend.SendQueue.FlushData` | network/tcp.c:994-1055 | the loop emits exactly the specified segments |
| `TcpSend.SendQueue.UpdateSndWindow` | network/tcp.c:820-969 | all branches move the window and send as specified |
| `TcpSend.SendQueue.RcvAck` | network/tcp.c:743-818 | congestion control and window update as specified, and the left edge reaches the acknowledgement |
| `TcpSend.SendQueue.OnTimeout` | network/tcp.c:1065-1074 | the window restarts at one segment from the left edge, and consecutive segments with exactly those bytes are sent again |
| `TcpCongestion.AckGrows` | network/tcp.c:778-790 | a new acknowledgement adds a segment in slow start, the whole part of SMSS squared over cwnd in congestion avoidance, and ends a recovery at the threshold plus a segment |
| `TcpCongestion.DuplicateCuts` | network/tcp.c:802-816 | only the third duplicate touches cwnd and ssthresh, which become half the recorded flight size and that plus three segments |
| `TcpCongestion.LimitedTransmitInflates` | network/tcp.c:917-942 | after a segment sent on a duplicate the recorded flight size is near 2^32, and the third duplicate opens cwnd to the whole ring |
| `TcpCongestion.SlowStart` | network/tcp.c:783-786 | over a run of n new acknowledgements below the threshold cwnd grows by n segments, up to the ring's size |
| `TcpCongestion.Avoidance` | network/tcp.c:787-790 | over a run of a window's worth of new acknowledgements above the threshold cwnd grows by one segment at most and never shrinks |
| `TcpCongestion.SendNewFills` | network/tcp.c:847-916 | new data: less than a segment is held back, nothing when all is acknowledged |
| `TcpCongestion.EveryUpdateFills` | network/tcp.c:743-916 | the same for every action of a run while no duplicate is counted |
| `TcpCongestion.DuplicateSends` | network/tcp.c:917-969 | on a duplicate other than the third one full segment goes out if and only if window, queue and the limit on the first two allow it |
| `TcpCongestion.PeerKnown` | network/tcp.c:15-22 | over a run the sender holds the window advertised last and the largest one, and its window is the lesser of cwnd and the former after every acknowledgement and timeout |
| `TcpCongestion.EveryTimeout` | network/tcp.c:1065-1074 | every timeout of a run sends the first unacknowledged bytes of the stream again, something if and only if bytes are queued and the peer's window is open |
| `TcpCongestion.EveryThirdDuplicate` | network/tcp.c:943-947 | every third duplicate of a run sends the first unacknowledged segment of the stream again |
| `TcpSend.SendQueue.Enqueue` | network/tcp_socket.c:367-401 | data is refused if and only if it does not fit; otherwise cur advances by its length and what may be sent is sent |
| `Checksum.AccumulatorFits` | network/socket_buffer.c:85-111 | for at most 65535 bytes the sum stays below the sign bit |
| `Checksum.CheckIsStandard` | network/socket_buffer.c:85-111 | the result is the one's-complement sum of RFC 1071, complemented |
| `Checksum.StoredChecksToZero` | network/socket_buffer.c:85-111 | storing the result makes the buffer check to zero |
| `Checksum.ByteOrderIndependent` | network/socket_buffer.c:85-111 | summing words in memory order gives the byte-swapped network-order result |
| `Checksum.CheckTcpWhole` | network/tcp.c:1208-1238 | combining the two partial sums is the checksum of pseudo-header and segment together |
| `Checksum.TcpVerifies` | network/tcp.c:1154-1198 | a segment sent with its checksum verifies to zero |
| `Checksum.Compute` | network/socket_buffer.c:85-111 | the loop computes that checksum, the emergency fold included |
| `Hashtable.Table.constructor` | data_types/hashtable.c:105-121 | a new table is valid and empty |
| `Hashtable.Table.Search` | data_types/hashtable.c:5-33 | the newest value of the key, removed if asked for; other keys keep theirs |
| `Hashtable.Table.Put` | data_types/hashtable.c:145-160 | the value goes on top of its key's values, the load bound is kept, and the recursion ends |
| `Hashtable.Table.Rehash` | data_types/hashtable.c:69-98 | twice the size, same entries, each key's values reversed, and room for one more without another rehash |
| `Hashtable.PutKeepsLookup` | data_types/hashtable.c:69-160 | a put keeps another key's lookup if and only if it does not double the table or that key's oldest and newest values agree |
| `Hashtable.DuplicateFlips` | data_types/hashtable.c:79-93 | a table within its load holds a key twice, and the next put doubles it and hides the newer value |
| `Hashtable.ElementsAreKeys` | data_types/hashtable.c:145-160 | with distinct keys the counter is the number of keys |
| `Hashtable.MapsPut` | data_types/hashtable.c:145-160 | a put, doubling or not, adds a new key to the map that the table represents, and keys stay distinct if and only if the key is new; the value put is found and other keys keep theirs |
| `Hashtable.MapsTake` | data_types/hashtable.c:140-143 | a removal takes the key out of the map |
| `Hashtable.MapsReversed` | data_types/hashtable.c:69-98 | a rehash leaves the map as it is |
| `Hashtable.MapsSize` | data_types/hashtable.c:145-160 | the element counter is the size of the map |
| `Hashtable.Serve` | data_types/hashtable.c:5-160 | every sequence of gets, puts of new keys and removals answers as a finite map does, across all doublings |
| `Pools.Pool.constructor` | memory_manager/fixed_size.c:10-39 | as many blocks as fit, all free, linked in a ring |
| `Pools.Pool.Alloc` | memory_manager/fixed_size.c:41-60 | the front block is handed out; it fails if and only if none is free |
| `Pools.Pool.Free` | memory_manager/fixed_size.c:62-78 | the block is in front again and no longer in use, also after exhaustion |
| `Pools.HeadsApart` | memory_manager/fixed_size.c:10-39 | different blocks do not overlap |
| `Kmalloc.Heap.constructor` | memory_manager/kmalloc.c:17-30 | pools of block sizes 4, 8, 16 and so on over equal stretches of memory, nothing in use |
| `Kmalloc.Heap.Alloc` | memory_manager/kmalloc.c:151-166 | a block of the smallest sufficient class, not in use before; it fails if and only if there is no such class or its pool is empty |
| `Kmalloc.Heap.Free` | memory_manager/kmalloc.c:290-301 | the address arithmetic finds the pool that handed the block out |
| `Kmalloc.LiveInside` | memory_manager/kmalloc.c:17-30 | a block in use lies inside its pool's stretch |
| `Kmalloc.BlocksApart` | memory_manager/kmalloc.c:17-30 | two blocks in use never overlap, of one pool or of two |
| `Kmalloc.AlignUpIsMultiple` | include/virtual_memory/vm.h:36 | the rounded address is a multiple of the alignment |
| `Kmalloc.AlignedHeap.Alloc` | memory_manager/kmalloc.c:329-338 | an aligned address with room for the size inside a block not in use before, recorded in the table; it fails if and only if the smallest class for size plus alignment does not exist or its pool is empty |
| `Kmalloc.AlignedHeap.Free` | memory_manager/kmalloc.c:340-346 | the original block goes back to its own pool, the record is removed, nothing else changes |
| `Kmalloc.AlignedHeap.RoundTrip` | memory_manager/kmalloc.c:329-346 | allocating, under that same condition, and freeing leaves every pool and the table's contents as they were |
| `Scheduling.QueueFor` | scheduler/scheduler.c:129-192 | a higher priority never gets a higher queue number; one queue for each hundred |
| `Scheduling.SleptIsElapsed` | scheduler/scheduler.c:207-231 | the credit is the time slept, at most 1000, in 32-bit arithmetic with a signed stamp |
| `Scheduling.PickLowest` | scheduler/scheduler.c:69-105 | the choice is the first eligible process of the lowest queue that holds one; none only if no queue holds one |
| `Scheduling.SleepExact` | scheduler/scheduler.c:199-221 | going to sleep keeps the run queues exact |
| `Scheduling.AwakeExact` | scheduler/scheduler.c:223-242 | a wake-up keeps them exact whatever it hits, the current process before its switch included |
| `Scheduling.ForkExact` | scheduler/scheduler.c:359-402 | queueing the child keeps them exact if and only if the parent is running |
| `Scheduling.ExitExact` | scheduler/scheduler.c:266-295 | exit keeps them exact |
| `Scheduling.TickExact` | drivers/lapic/lapic.c:211-223 | the timer's quantum keeps them exact and the priority in range |
| `Scheduling.ExpireExact` | drivers/lapic/lapic.c:175-197 | ending a timed sleep keeps them exact if and only if the process sleeps and is not current |
| `Scheduling.ExpireBreaks` | drivers/lapic/lapic.c:188-197 | a run from boot: the child sleeps, is woken early, and the end of its timed sleep queues it a second time |
| `Scheduling.ScheduleExact` | scheduler/scheduler.c:51-127 | schedule keeps them exact, and the process it switches to is running, if and only if there is another process to take, the current one runs on, or process 0 is running |
| `Scheduling.IdleSleepBreaks` | scheduler/scheduler.c:106-126 | hypothetical: process 0 asleep with nothing else to run would be left current and on no queue |
| `Scheduling.TraceExact` | scheduler/scheduler.c:51-242 | a run of any sleeps, wake-ups, forks, exits, ticks, ends of timed sleeps and schedules keeps the queues exact throughout if and only if each end of a timed sleep finds its process asleep off the processor and each schedule has something to run |
| `Scheduling.RunExact` | scheduler/scheduler.c:51-242 | where process 0 idles and no interrupted timed sleep ends, over every interleaving a process is queued exactly once if it is running or current, else never |
| `Scheduling.FromBoot` | kmain.c:110-128 | that holds in every state reached from boot |
| `Scheduling.ScheduleRotates` | scheduler/scheduler.c:69-127 | a process switched away from leaves its queue and, if it runs on, stands last on the queue for its priority; all others keep their order |
| `Scheduling.Scheduler.Schedule` | scheduler/scheduler.c:51-127 | the loops and branches do the specified step and rotate the queues |
| `Turns.RoundRobin` | scheduler/scheduler.c:69-127 | while only schedule runs, the processes waiting on the first occupied queue are chosen in order, each once before any twice, if and only if none of those that make room belongs on a better queue |
| `Turns.RunSeated` | scheduler/scheduler.c:51-242 | over every run from boot whose wake-ups find their process asleep or current, nobody who waits sits on a queue worse than its priority's |
| `Turns.TurnsInRun` | scheduler/scheduler.c:51-242 | so after such a run turns are in order if and only if the current process, on leaving, does not get ahead |
| `Turns.ChildRunsNext` | scheduler/scheduler.c:359-402 | a child has its parent's record and runs next if nobody waits on a better queue |
| `Turns.ExitedIsGone` | scheduler/scheduler.c:266-295 | after exit and schedule the process is gone from records and queues, all others stay in order |
| `Turns.ExpiredWaitsLast` | drivers/lapic/lapic.c:175-197 | the end of a timed sleep adds a quantum to the priority and puts the process behind all who wait on its queue |
| `Turns.SleepIsPriority` | scheduler/scheduler.c:199-242 | over every run between a sleep and the wake-up, the time that passed, at most 1000, becomes the priority, and a process that was switched away from stands first on that queue |
| `Turns.TickSpoilsCredit` | drivers/lapic/lapic.c:214-223 | with a tick before the switch the credit is right if and only if the sleep lasted 1000 or began at time zero |
| `Turns.QuantaSink` | drivers/lapic/lapic.c:214-223 | n quanta take ten n off the priority, down to zero |
| `Scheduling.Scheduler.Find` | scheduler/scheduler.c:69-105 | the nested loops stop at the specified choice |
| `Scheduling.Scheduler.Awake` | scheduler/scheduler.c:223-242 | the specified step, invariant kept |
| `Scheduling.Scheduler.Sleep` | scheduler/scheduler.c:199-221 | the specified step, invariant kept |
| `Scheduling.Scheduler.Fork` | scheduler/scheduler.c:359-402 | the specified step with a new pid, invariant kept |
| `Scheduling.Scheduler.Exit` | scheduler/scheduler.c:266-295 | the specified step, invariant kept |
| `Semaphores.UpSafe` | synchro_types/semaphore.c:55-81 | the process that waited longest gets the permit, runs, and is queued once; the count does not change |
| `Semaphores.DownSafe` | synchro_types/semaphore.c:23-53 | taking a permit or going to sleep keeps the accounting and keeps waiters different and asleep |
| `Semaphores.SleepsOn` | scheduler/scheduler.c:51-242 | a sleeping process stays asleep until something wakes it |
| `Semaphores.Conserved` | synchro_types/semaphore.c:16-81 | over every run count plus grants is the initial count plus ups, a positive count means an empty queue, grants follow the order of requests, and waiters are on no run queue once switched out |
| `Semaphores.Accounted` | synchro_types/semaphore.c:16-81 | if only processes inside call sem_up, count plus processes inside is the initial count |
| `Semaphores.MutualExclusion` | synchro_types/semaphore.c:16-81 | a semaphore that starts at one never lets two processes inside |
| `Semaphores.Semaphore.Down` | synchro_types/semaphore.c:23-53 | the specified step on top of the scheduler's sleep |
| `Semaphores.Semaphore.Up` | synchro_types/semaphore.c:55-81 | the specified step on top of the scheduler's wake-up |
| `Ext2Blocks.AddedEntries` | include/ext2/ext2_utils_1.h:72-111 | cutting the last record short and storing one behind it keeps the block tiled and appends exactly the new entry |
| `Ext2Blocks.SwallowedEntries` | include/ext2/ext2_utils_1.h:1004-1008 | enlarging a record over the next one keeps the block tiled and removes exactly that entry |
| `Ext2Blocks.ClearedEntries` | include/ext2/ext2_utils_1.h:999-1003 | a zero inode number keeps the block tiled and removes exactly that entry |
| `Ext2Blocks.ChainAligned` | include/ext2/ext2_utils_1.h:50-80 | every record starts on a multiple of four |
| `Ext2Blocks.StoreRecord` | include/ext2/ext2_utils_1.h:83-95 | the bytes written are read back as the same inode, length, name and file type |
| `Ext2Directory.Directory.Add` | include/ext2/ext2_utils_1.h:32-151 | the entry is appended and all others stay; it fails if and only if fewer bytes than the padded entry are left behind the padded name of the last record, and no block may be added; sizes and link count follow |
| `Ext2Directory.Directory.Delete` | include/ext2/ext2_utils_1.h:947-1019 | the first entry of the inode is removed and all others stay; nothing changes if there is none |
| `Ext2Directory.Directory.Lookup` | include/ext2/ext2_utils_2.h:599-661 | the inode of the first entry in use with the name, or none |
| `Ext2Directory.Directory.Count` | include/ext2/ext2_utils_1.h:1021-1065 | the number of entries in use |
| `Ext2Directory.Directory.constructor` | ext2/ext2.c:1224-1257 | a new directory is tiled and holds the two dot entries with truncated inode numbers |
| `Ext2Directory.DotsFound` | ext2/ext2.c:1232-1248 | the dot entries are right if and only if the inode numbers are below 65536 |
| `Ext2Directory.DotNamesRoot` | ext2/ext2.c:1232-1235 | the dot entry of a directory with inode 65538 names the root |
| `Ext2Directory.Faithful` | include/ext2/ext2_utils_2.h:631-642 | lookup is lookup in a map, which has as many names as there are entries if names differ |
| `Ext2Directory.AddIsUpdate` | include/ext2/ext2_utils_1.h:32-151 | adding is a map update if and only if no other inode has the name, and names stay different if and only if the name is new |
| `Ext2Directory.AddFinds` | include/ext2/ext2_utils_1.h:32-151 | the new name is found with the new inode if and only if no other inode had the name |
| `Ext2Directory.AddOthers` | include/ext2/ext2_utils_1.h:32-151 | other names are found as before |
| `Ext2Directory.DeleteIsRemoval` | include/ext2/ext2_utils_1.h:947-1019 | deleting removes the entry's name from the map if and only if no other entry carries it; where names differ that is always so, and they stay different |
| `Ext2Directory.DeleteFinds` | include/ext2/ext2_utils_1.h:981-1008 | the name is gone if and only if the entry deleted carried it and no other did |
| `Ext2Directory.DeleteOthers` | include/ext2/ext2_utils_1.h:947-1019 | other names are found as before |
| `Ext2Directory.SecondNameStays` | include/ext2/ext2_utils_1.h:981-1008 | two names for one inode: deleting the second removes the first |
| `Ext2Runs.DeleteStep` | include/ext2/ext2_utils_1.h:947-1019 | where names differ, a deletion takes exactly one name of the inode out of the map |
| `Ext2Runs.InodesAreValues` | include/ext2/ext2_utils_1.h:981-1008 | an inode is found for deletion if and only if some name maps to it |
| `Ext2Runs.ServeOne` | include/ext2/ext2_utils_1.h:32-1065 | an addition of a new name, a deletion, a lookup and a count answer and act as on a finite map, and an addition is refused if and only if there is no room |
| `Ext2Runs.Serve` | include/ext2/ext2_utils_1.h:32-1065 | the same over every sequence of such operations, the blocks staying tiled |
| `Ext2Directory.AddThenDelete` | include/ext2/ext2_utils_1.h:32-1019 | deleting what was added gives the entries back |
| `Ext2Read.File.MapBlock` | ext2/ext2.c:493-628 | direct, single and double indirect mapping with cached indirect blocks gives the disk address of the i-th leaf of the pointer tree |
| `Ext2Read.LeafOf` | ext2/ext2.c:493-628 | the index arithmetic finds the i-th leaf: direct pointers, then those under the single, then those under the double indirect block |
| `Ext2Read.FileByteIs` | ext2/ext2.c:480-628 | byte p of the file is byte p of the leaves' blocks put together |
| `Ext2Read.CollectSound` | ext2/ext2.c:629-688 | one more block keeps the runs, finished and in progress, standing for exactly the blocks seen |
| `Ext2Read.File.CollectRuns` | ext2/ext2.c:493-688 | the runs are those of the loop, flatten to the file's block addresses in order, and no two neighbours could be one |
| `Ext2Read.RunBytes` | ext2/ext2.c:756-784 | the sectors of a run hold the file's bytes one after the other |
| `Ext2Read.PortionFits` | ext2/ext2.c:756-778 | every run but the last is wanted to its end, and the byte counts add up to the request |
| `Ext2Read.File.ReadBlocks` | ext2/ext2.c:689-744 | block by block the buffer gets exactly the bytes from the offset on, and the offset advances by the count |
| `Ext2Read.File.ReadDma` | ext2/ext2.c:748-804 | through runs and the DMA buffer the same bytes and the same offset |
| `Ext2Read.File.Read` | ext2/ext2.c:480-804 | with DMA or without, the buffer gets the same bytes, those from the offset on of the leaves' blocks put together, and nothing behind them changes |

## Left out

- Device drivers, interrupt controllers, console, ELF loading, user programs and inline assembly: hardware and I/O. The old copy of vm.c in the root directory.
- Panics: `panic()` returns in the source and execution falls through. Out-of-memory checks are failure results or preconditions here.
- Fork, Clone, Demand, Write need enough free pages as a precondition; the source does not test for it except by panicking.
- VirtualMemory.Vm.Fork: the frame count is a natural number, not the source's 16-bit field, and the table entry of a child is set together with its page table.
- VirtualMemory.Vm.Exit: a kernel thread is required to have no user pages, as the source assumes.
- The segmentation-fault fallback of the page fault handler, which maps a page without counting it.
- umap_vm_mem on ranges other than the two it is called with at exit; partial tables of the framebuffer and device mappings.
- `page_list_ref` in the buddy allocator is a flag here: whether the block is on a list.
- Sequence numbers that cross 2^32: the source's overflow macro adds one too little. All sequence positions stay below it.
- Eventual delivery: nothing is said about the reader coming back, the network or the timers.
- Directory entries 768 to 1023, which every process copies from its parent, and the contents of kernel stacks.
- TcpReassembly.Reassembly: runs in which one segment completes the whole ring are excluded; `AcceptSound` shows that exactly those break the invariant.
- TcpSend.SenderSafe: that segments are cut from the stream is stated for runs without a wrapped enqueue that stores wrong bytes and without a short third-duplicate retransmission; the exact conditions are `EnqueueStores` and `UpdateSndSound`. Order and bounds need neither (`PointersSafe`).
- TcpSend.SendQueue.RcvAck: acknowledgements below the window, which the source takes for wrapped ones, are not carried out; `StaleAckMovesBack` says where they would put the left edge.
- TcpReceive.ReceiveQueue.Dequeue: a read of zero bytes is not modelled; the source takes it around the ring with a negative length. Blocking and wake-up of readers and writers are not.
- TCP connection set-up and teardown, timers, round-trip estimation in floating point, the connection map.
- Checksum.Compute: buffers above 65535 bytes are not modelled; there the signed accumulator overflows and its fold shifts a negative number.
- Hashtable: the load factor is a rational number, not a float; hashing of strings, iteration and freeing are left out.
- Pools.Pool.constructor: a stretch shorter than one block, for which the source writes a header outside it, is excluded.
- Kmalloc.AlignedHeap.Free: only for addresses the heap handed out; the source frees address zero otherwise. The hash table's own nodes are not taken from the modelled heap.
- Process 0 is identified with the process, not with the list node recorded at its first fork; deleting a node that is on no list is modelled as no change.
- Scheduling.RunExact: process 0 does not sleep, and the end of a timed sleep that a wake-up or signal already interrupted is excluded, as it is from `FromBoot` and the semaphore's runs; `TraceExact` covers both and says exactly when they do harm. Static priorities are zero, the only value the source assigns. Starvation of low queues is not excluded by the source; turns are stated within a queue.
- Scheduling.FromBoot: the same two exclusions.
- Turns.TurnsInRun: wake-ups that hit a process already running, which change its priority without moving it, are excluded; `RoundRobin` needs no such exclusion.
- Signals and the pause queue. A signal that wakes a waiter of a semaphore breaks hand-off; only sem_up is taken to wake waiters.
- Ext2Directory.Directory.Lookup: the source compares the name before its length and may read past the block while doing so; the comparison here stays inside the record. Names are at most 255 bytes, directories have one to twelve blocks, and allocating a block succeeds.
- Ext2Runs.Serve: additions of a name that is already there are excluded from runs; `AddIsUpdate` says when such an addition is a map update.
- Ext2Read.File.ReadDma: the DMA buffer is required to hold the longest run of the request; the source does not test for it. Reads of zero bytes, reads that pass the end of the file by more than the one byte that the source lets through, and reads of holes and of triple indirect blocks are left out.
- ext2 writes, block and inode bitmaps, preallocation, path lookup and the inode cache.
