# A verified model of libvma's allocators, rings and daemon

This project models the stateful core of libvma, a user-space network stack, and proves what that core
keeps over whole runs.

- **Buffers** (`src/vma/dev/buffer_pool.cpp`). The pool is an intrusive free list of `MemBufDesc` objects. Gets
  and puts keep it a NULL-terminated chain without repeats, and free plus handed-out buffers are always
  the created ones. The diagnostics that run when the count looks wrong are proved on arbitrary link
  structures: `isCircle` decides whether a chain ever ends, and the three loops of Floyd's algorithm end
  and report the least index and the least period of the circle.
- **Device memory** (`src/vma/dev/dm_mgr.cpp`). The cyclic allocator keeps live packets contiguous, aligned, inside the
  memory and disjoint, never touches a packet's bytes before its release, and refuses a packet exactly when
  the bytes of the live reservations leave it nowhere to go.
- **Completion ring** (`src/vma/dev/cq_mgr_mlx5.cpp`). Device and consumer steps interleave freely. The owner bit
  and a 32-bit consumer index are enough to deliver every completion once and in order, also when the index wraps.
- **Receive queue** (`src/vma/dev/cq_mgr.cpp`). The debt stays within its bound, work requests plus debt are
  conserved, no buffer is lost or duplicated, datagrams are never reordered, and postings refill the receive queue
  in whole batches for as long as there are free buffers. The poll serial numbers repeat
  exactly when a queue counts through 2^32, and otherwise `request_notification` cannot miss a completion.
- **State machine** (`src/state_machine`). The conversion of the sparse table is exact, and the mutually recursive
  engine that queues events posted by callbacks equals a plain first-in first-out work loop, and on a converted
  table an interpreter of the short table's lines.
- **Recursive spin lock** (`src/utils/lock_wrapper.h`). A step-by-step interleaving model shows that the owner field
  can be read without the lock, what every call has done when it returns, and that only a taken lock makes a thread wait.
- **Daemon** (`tools/daemon`). The open-addressing hash table refines a finite map and frees each value once. The flow tree counts
  exactly the live flows at every level, its id allocators hand out free ids only, and the message
  protocol keeps the tree equal to the union of the registered processes' flow lists. `calc_csum` is the
  Internet checksum of section 1 of RFC 1071.

Code that changes state step by step is modelled by classes and methods with loops. Each such method is tied
to a function of its inputs or of the old state, and the theorems are lemmas about those functions and about
runs made of them. Answers of the outside world (device, tc, interface lookups, allocation, application
callbacks) are parameters.

Some properties one would expect hold only under a condition. These are stated with the condition, in both
directions:

- `FlowRuns.AddKeepsAccountedIff`: when `add_flow` fails after it has taken its first reference, or runs out of table
  or node ids, the tree no longer counts the live flows.
- `FlowRuns.DelKeepsAccountedIff`: `del_flow` on an interface that can no longer be looked up changes nothing.
- `FlowRoom.ServedIffRoom`, `FlowRoom.BucketOverflows`, `FlowRoom.TablesOverflow`: ids run out at 2047 tables of an interface and 4095 nodes of a bucket,
  and such states are reached.
- `FlowFailures.FailedAddLeaks`: which references a late failure leaves behind.
- `DeviceMemory.Layout.EmptyRefusesIff`: an empty device memory can refuse a packet although every byte is free.
- `FlowIds.ThreeTupleIdsCollide`: node ids of 3-tuple flows are not unique.
- `BufferPool.PutAgainMakesCircle` and `CountNoticesIff`: a buffer put back twice turns the free list into a circle, which is noticed only when no buffer is out.
- `CompletionQueue.RepostIff` and `GivenUpDespiteFree`: packets are given up while less than a whole level of free buffers remains.
- `FlowRoom.ServedInstallsNodeIff`: a flow whose port is a multiple of 256 is accepted without a filter.
- `FlowRoom.OverflowTakesAnothersNode`: deleting a flow that a full bucket could not take removes another flow's node.
- `CompletionRing.SurvivesWriteIff`: an entry may be overwritten between the doorbell and a later read.
- `DaemonProtocol.StepKeepsIff`: among others, registering a registered process again forgets its flows.
- `SmTable.AcceptedTargets`: the conversion accepts negative targets other than STAY.
- `SmEngine.ConvertedRunsStayInside`: such a target is what takes a run out of the table.
- `SmEngine.GuardAdmitsOneTooMany`: the guard of `process_event` admits one event that has no table entry, and that one only can take the machine out of a legal table.
- `Checksum.FinishIsComplement` and `Checksum.LongBuffersFail`: two folds suffice up to 65538 words, and for no larger bound.
- `SerialNumbers.RepeatsExactlyOnWrap`: when a global serial number shows up again.
- `DeviceMemory.Align8Rounds`: rounding up gives 0 for the last seven 32-bit lengths.

## Model

| member | source | states |
|---|---|---|
| `BufferChain.IsCircle` | src/vma/dev/buffer_pool.cpp:201-215 | on every finite link structure the two-speed loop ends, and says true exactly when the chain never reaches NULL |
| `BufferChain.CatchUpBound` | src/vma/dev/buffer_pool.cpp:201-215 | the fast walker has met the slow one or run into NULL after at most one step more than there are links |
| `Orbits.EndlessHasShape` | src/vma/dev/buffer_pool.cpp:232-275 | an endless chain is a tail of length mu followed by a cycle of length lambda, mu and lambda least, and together at most the number of links |
| `Orbits.ShapeIsLeast` | src/vma/dev/buffer_pool.cpp:232-275 | mu is the first index on the cycle and lambda the least period |
| `Orbits.ShapeIsUnique` | src/vma/dev/buffer_pool.cpp:232-275 | there is only one such mu and lambda |
| `Orbits.MeetingPoint` | src/vma/dev/buffer_pool.cpp:232-241 | tortoise and hare meet at a step that is a multiple of the period, not before the cycle and at most mu + lambda |
| `BufferChain.TortoiseMeetsHare` | src/vma/dev/buffer_pool.cpp:232-241 | the first loop ends at such a meeting point |
| `BufferChain.FindMu` | src/vma/dev/buffer_pool.cpp:252-263 | the second loop ends with the least index on the cycle, capped at the loop's limit |
| `BufferChain.FindLambda` | src/vma/dev/buffer_pool.cpp:265-273 | the third loop ends with the least period, capped at the loop's limit |
| `BufferChain.FloydCircleInfo` | src/vma/dev/buffer_pool.cpp:232-275 | the reported pair is the least index and least period of the chain, up to the cap |
| `BufferChain.BuffersPanic` | src/vma/dev/buffer_pool.cpp:277-302 | a circle is reported exactly when there is one, with its least index and period |
| `BufferChain.ReportedIsExact` | src/vma/dev/buffer_pool.cpp:243-275 | the report is exact if and only if both numbers are within the cap |
| `BufferPool.BufferPool.constructor` | src/vma/dev/buffer_pool.cpp:78-127 | all buffers created are on the free list, and none is out |
| `BufferPool.BufferPool.PutBufferHelper` | src/vma/dev/buffer_pool.cpp:52-64 | one buffer becomes the head of the chain; everything else keeps its order |
| `BufferPool.BufferPool.PopMany` | src/vma/dev/buffer_pool.cpp:166-178 | the loop takes the first count buffers in order and stamps each |
| `BufferPool.BufferPool.GetBuffers` | src/vma/dev/buffer_pool.cpp:150-184 | all or nothing: count buffers from the head in order, each stamped, or no change but the statistic; what is out grows by exactly those buffers |
| `BufferPool.BufferPool.PutBuffers` | src/vma/dev/buffer_pool.cpp:307-320 | the list comes back reversed on top of the free list, what is out shrinks by exactly its buffers, and the count never passes the number created |
| `BufferPool.BufferPool.PutQueue` | src/vma/dev/buffer_pool.cpp:328-345 | the last count lists of a queue come back, back to front, what is out shrinks by exactly their buffers, and the rest of the queue is left |
| `BufferPool.BufferPool.Conservation` | src/vma/dev/buffer_pool.cpp:52-64 | free plus handed-out buffers are the created ones, and no buffer is free twice |
| `BufferPool.BufferPool.NeverTooMany` | src/vma/dev/buffer_pool.cpp:316-319 | the condition that calls buffersPanic is never met |
| `BufferPool.BufferPool.FreeListEnds` | src/vma/dev/buffer_pool.cpp:201-215 | the free list is never a circle |
| `Orbits.PushMakesCircleIff` | src/vma/dev/buffer_pool.cpp:52-64 | pushing a node onto a list makes a circle if and only if the node is on the list already |
| `BufferPool.BufferPool.PutAgainMakesCircle` | src/vma/dev/buffer_pool.cpp:52-64 | putting back a buffer makes a circle of the free list if and only if the buffer was free already |
| `BufferPool.BufferPool.CountNoticesIff` | src/vma/dev/buffer_pool.cpp:316-319 | the count notices such a put, and buffersPanic is called, if and only if no buffer is out |
| `BufferPool.PutUndoesGet` | src/vma/dev/buffer_pool.cpp:150-184 | putting back what a get took, as one list per buffer, restores the free list |
| `DeviceMemory.Align8Rounds` | src/vma/dev/dm_mgr.cpp:193 | the length is rounded up to a multiple of 8 exactly, or to 0 when 32 bits overflow |
| `DeviceMemory.Layout.Placement` | src/vma/dev/dm_mgr.cpp:200-216 | live packets are inside the memory, aligned and pairwise disjoint |
| `DeviceMemory.Layout.UsedIsTotal` | src/vma/dev/dm_mgr.cpp:232-236 | m_used is the sum of the reservations, padding included, and the oldest one starts at head minus used modulo the allocation |
| `DeviceMemory.Layout.TakenIff` | src/vma/dev/dm_mgr.cpp:150-176 | the reserved bytes are exactly those from the tail to the head, around the end of the memory |
| `DeviceMemory.Layout.RunIsLongest` | src/vma/dev/dm_mgr.cpp:204-219 | the free run counted from the head is the longest one: n bytes from the head are free if and only if n is at most that |
| `DeviceMemory.Layout.AcceptsIff` | src/vma/dev/dm_mgr.cpp:199-219 | the checks on head and used say what the bytes say: n bytes are free from the head on, or nothing is reserved behind the head and n bytes are free from offset 0 |
| `DeviceMemory.Layout.EmptyRefusesIff` | src/vma/dev/dm_mgr.cpp:204-216 | the one gap: an empty memory refuses, with every byte free, exactly what is longer than both the bytes before the head and those from it on |
| `DeviceMemory.EmptyRefusal` | src/vma/dev/dm_mgr.cpp:204-216 | such a state: 200 bytes, an empty memory of 256, the head at 128 |
| `DeviceMemory.Layout.AppendKeeps` | src/vma/dev/dm_mgr.cpp:203-216 | a packet with room, padded or not, keeps the layout valid |
| `DeviceMemory.Layout.AppendIsClear` | src/vma/dev/dm_mgr.cpp:203-216 | a new packet goes where no live packet is and moves none of them |
| `DeviceMemory.Layout.DropOldestKeeps` | src/vma/dev/dm_mgr.cpp:261-264 | releasing the oldest packet keeps the layout valid |
| `DeviceMemory.AppendStores` | src/vma/dev/dm_mgr.cpp:224-228 | the write stores the new bytes and leaves every live packet's bytes unchanged |
| `DeviceMemory.AppendCharges` | src/vma/dev/dm_mgr.cpp:235-236 | each live packet's buffer records its reservation, and no buffer holds two packets |
| `DeviceMemory.DmMgr.constructor` | src/vma/dev/dm_mgr.cpp:55-64 | an empty memory |
| `DeviceMemory.DmMgr.FindRoom` | src/vma/dev/dm_mgr.cpp:199-219 | room is found exactly when the bytes are there, and the end of the memory is skipped only when they are not free at the head |
| `DeviceMemory.DmMgr.CopyData` | src/vma/dev/dm_mgr.cpp:191-255 | refused exactly when the free bytes are not there, told both from head and used and from the bytes of the live reservations; otherwise the packet goes to the head if the bytes there are free and else to offset 0, is the newest one, has its bytes at the reported address, and all older packets stay where they are with their bytes |
| `DeviceMemory.DmMgr.WriteWords` | src/vma/dev/dm_mgr.cpp:224-228 | the 8-byte copy loop overwrites exactly its range |
| `DeviceMemory.DmMgr.ReleaseData` | src/vma/dev/dm_mgr.cpp:261-269 | frees the oldest packet, or nothing for a buffer that holds none |
| `CompletionRing.SlotsDiffer` | src/vma/dev/cq_mgr_mlx5.cpp:475-476 | no two completions of one lap share a slot |
| `CompletionRing.NextLap` | src/vma/dev/cq_mgr_mlx5.cpp:477-482 | one lap later the slot is the same and the owner bit is flipped |
| `CompletionRing.PublishShows` | src/vma/dev/cq_mgr_mlx5.cpp:473-492 | publishing a completion leaves the last lap readable from the cells |
| `CompletionRing.Ring.DeviceWriteBody` | src/vma/dev/cq_mgr_mlx5.cpp:473-492 | the device's first step: rewriting the next slot's body disturbs nothing the consumer may still read |
| `CompletionRing.Ring.DevicePublish` | src/vma/dev/cq_mgr_mlx5.cpp:473-492 | the device's second step: opcode and owner bit make the completion visible, keeping the ring valid |
| `CompletionRing.Ring.IndexBits` | src/vma/dev/cq_mgr_mlx5.cpp:475-477 | the low bits of the wrapped 32-bit index are the slot, and bit log2(size) is the lap parity |
| `CompletionRing.Ring.NextSlot` | src/vma/dev/cq_mgr_mlx5.cpp:475-482 | the slot at the index shows the next completion if there is one, else a stale owner bit or an invalid entry |
| `CompletionRing.Ring.GetCqe64` | src/vma/dev/cq_mgr_mlx5.cpp:473-492 | the places of completions and errors come in published order, none lost or repeated, each showing its completion; nothing comes exactly when all are delivered or the opcode is an unknown one |
| `CompletionRing.Ring.LateRead` | src/vma/dev/cq_mgr_mlx5.cpp:528-541 | an entry read after the doorbell is intact as long as the device has not started on its slot again |
| `CompletionRing.SurvivesWriteIff` | src/vma/dev/cq_mgr_mlx5.cpp:485-491 | an entry survives whatever the device writes next if and only if the device is not exactly one lap ahead of it |
| `CompletionRing.Ring.CheckErrorCompletion` | src/vma/dev/cq_mgr_mlx5.cpp:456-471 | only the two error opcodes are consumed |
| `CompletionRing.Ring.CheckCqe` | src/vma/dev/cq_mgr_mlx5.inl:44-60 | a completion is seen exactly when one is outstanding whose opcode is not the invalid one, and it is the next one |
| `CompletionQueue.CompensateKeepsDebt` | src/vma/dev/cq_mgr.cpp:573-601 | one completion adds one to work requests plus debt, and the debt stays within 0 and its bound |
| `CompletionQueue.CompensatePosts` | src/vma/dev/cq_mgr.cpp:579-598 | a posting that is due and finds a free buffer pays the whole debt or uses up what was free; what is posted are the oldest free buffers, in order; otherwise nothing is posted but a packet given up |
| `CompletionQueue.RepostIff` | src/vma/dev/cq_mgr.cpp:586-598 | a received packet is given up exactly when a posting is due, the pool is empty, the global pool has less than a whole level, and the queue must be kept full or is about to run dry |
| `CompletionQueue.GivenUpDespiteFree` | src/vma/dev/cq_mgr.cpp:327-341 | so a packet is given up while free buffers remain: any number of them below the level |
| `CompletionQueue.ProcessPlaces` | src/vma/dev/cq_mgr.cpp:1253-1281 | where each completed packet ends: with the sockets, at the end of the queue, in the pool, or, exactly when one must be given up, on the receive queue again |
| `CompletionQueue.MoreBuffersConserves` | src/vma/dev/cq_mgr.cpp:327-341 | buffers only move from the global pool to the queue's pool |
| `CompletionQueue.CompensateConserves` | src/vma/dev/cq_mgr.cpp:573-601 | every buffer is where it was or on the receive queue; the given one is added exactly when it is used |
| `CompletionQueue.ProcessKeeps` | src/vma/dev/cq_mgr.cpp:1253-1281 | one completion keeps the debt bound and the order of the queue, and raises work requests plus debt by one unless it failed or was recycled |
| `CompletionQueue.ProcessConserves` | src/vma/dev/cq_mgr.cpp:1253-1281 | one completion loses and duplicates no buffer |
| `CompletionQueue.PollKeeps` | src/vma/dev/cq_mgr.cpp:1238-1285 | a poll keeps the debt bound and the order; work requests plus debt fall short by exactly the failed and recycled completions it found |
| `CompletionQueue.PollConserves` | src/vma/dev/cq_mgr.cpp:1238-1285 | a poll loses and duplicates no buffer |
| `CompletionQueue.RunKeeps` | src/vma/dev/cq_mgr.cpp:1228-1298 | over any run of polls, direct polls, deliveries, idle polls, trims, returns from sockets and traffic of other queues on the global pool: debt within its bound, work requests plus debt short by exactly the failed and recycled completions polled, every buffer still somewhere, and what was delivered or given up followed by the queue is the old queue followed by all datagrams in order |
| `CompletionQueue.GoodRunKeepsRequests` | src/vma/dev/cq_mgr.cpp:573-601 | over good completions, outstanding work requests plus debt are constant |
| `CompletionQueue.PostingRefills` | src/vma/dev/cq_mgr.cpp:586-589 | after any run, a posting leaves the receive queue as full as it was with all debt paid, less the unpaid completions, unless the pool has run dry |
| `CompletionQueue.IdlePosts` | src/vma/dev/cq_mgr.inl:55-67 | an idle poll pays the whole debt or uses up the free buffers, oldest first |
| `CompletionQueue.IdlingRefills` | src/vma/dev/cq_mgr.inl:55-67 | after any run, enough idle polls fill the receive queue again, unless no free buffer can be had |
| `CompletionQueue.DrainInBatches` | src/vma/dev/cq_mgr.cpp:573-601 | draining good completions with enough free buffers posts the oldest of them in whole batches, and the debt left is the remainder |
| `CompletionQueue.DatagramsAreReported` | src/vma/dev/cq_mgr.cpp:1253-1281 | the datagrams of a poll are the polled packets that the device reports as datagrams, and none while recycling |
| `CompletionQueue.DirectOnlyWhenEmpty` | src/vma/dev/cq_mgr_mlx5.cpp:379-388 | packets are delivered past m_rx_queue only when that queue is empty |
| `CompletionQueue.DirectTakes` | src/vma/dev/cq_mgr_mlx5.cpp:379-396 | a direct poll leaves the device alone when the queue alone reaches the limit, and otherwise takes all that the device, the posted requests and the limit allow |
| `CompletionQueue.DirectKeeps` | src/vma/dev/cq_mgr_mlx5.cpp:379-422 | so a direct poll keeps delivery order equal to arrival order, with the debt bound and the requests |
| `CompletionQueue.DirectConserves` | src/vma/dev/cq_mgr_mlx5.cpp:379-422 | a direct poll loses and duplicates no buffer |
| `CompletionQueue.ReclaimConserves` | src/vma/dev/cq_mgr.cpp:603-645 | buffers returned by sockets are neither lost nor duplicated |
| `CompletionQueue.ReclaimJoins` | src/vma/dev/cq_mgr.cpp:1083-1095 | what the sockets return joins the end of the pool; the oldest stay and the rest goes on to the global pool |
| `CompletionQueue.PerformKeeps` | src/vma/dev/cq_mgr.cpp:327-352 | every single step keeps the debt bound, the requests and the order |
| `CompletionQueue.IdleConserves` | src/vma/dev/cq_mgr.inl:55-67 | an idle poll loses and duplicates no buffer |
| `CompletionQueue.TrimConserves` | src/vma/dev/cq_mgr.cpp:343-352 | returning extra buffers loses and duplicates none |
| `CompletionQueue.TrimCuts` | src/vma/dev/cq_mgr.cpp:343-352 | a pool of twice the level or more is cut to its oldest level buffers, a smaller one is left alone |
| `CompletionQueue.ServedKeeps` | src/vma/dev/cq_mgr.inl:69-83 | delivering datagrams takes them off the old end of the queue in order, all of them if the limit allows, and leaves debt and requests alone |
| `CompletionQueue.ServedConserves` | src/vma/dev/cq_mgr.inl:69-83 | delivering datagrams loses and duplicates no buffer |
| `CompletionQueue.ServeDelivers` | src/vma/dev/cq_mgr.inl:69-83 | the oldest datagrams go to the sockets, in order, until the queue is empty or the limit, at least one, is reached |
| `CompletionQueue.ServeKeepsPool` | src/vma/dev/cq_mgr.inl:43-52 | while the sockets give nothing back, delivery leaves the pool as it is |
| `CompletionQueue.KeepFullBound` | src/vma/dev/cq_mgr.cpp:590-596 | in keep-full mode the debt stays below the posting batch |
| `CompletionQueue.CqMgr.RequestMoreBuffers` | src/vma/dev/cq_mgr.cpp:327-341 | all or nothing from the global pool |
| `CompletionQueue.CqMgr.ReturnExtraBuffers` | src/vma/dev/cq_mgr.cpp:343-352 | performs the trim step, and the pool ends below twice the level |
| `CompletionQueue.CqMgr.CompensateQpPollFailed` | src/vma/dev/cq_mgr.inl:55-67 | performs the idle step, and lowers the debt whenever a free buffer exists |
| `CompletionQueue.CqMgr.ProcessRecvQueue` | src/vma/dev/cq_mgr.inl:69-83 | performs the delivery step for as many datagrams as there are, up to the limit |
| `CompletionQueue.CqMgr.PollAndProcessElementRx` | src/vma/dev/cq_mgr.cpp:867-901 | performs the direct step: the queue first, then the device if there is room, else an idle poll; returns how many packets came |
| `CompletionQueue.CqMgr.ReclaimRecvBuffers` | src/vma/dev/cq_mgr.cpp:1083-1095 | the returned buffers join the pool in order, then the pool is trimmed |
| `CompletionQueue.CqMgr.CompensateQpPollSuccess` | src/vma/dev/cq_mgr.cpp:573-601 | computes the compensation step of the specification, counting a drop exactly when the buffer is used |
| `CompletionQueue.CqMgr.ProcessElement` | src/vma/dev/cq_mgr.cpp:1253-1281 | computes the step for one completion and keeps the state sound |
| `CompletionQueue.CqMgr.QueueDatagram` | src/vma/dev/cq_mgr_mlx5.cpp:290-297 | the datagram joins the queue and only the oldest one may leave it |
| `CompletionQueue.CqMgr.Recycle` | src/vma/dev/cq_mgr.cpp:1256-1258 | a recycled packet goes back to the pool and raises no debt |
| `CompletionQueue.CqMgr.PollOnce` | src/vma/dev/cq_mgr.cpp:1252-1285 | the loop over one batch equals processing its completions in order |
| `CompletionQueue.CqMgr.DrainAndProcess` | src/vma/dev/cq_mgr.cpp:1228-1298 | equals a run of polls, recycling or not; what left the queue followed by the queue is the old queue followed by the datagrams in order; returns how many completions came and, when recycling, the last buffer; stops only at the limit or when the device runs dry; each poll is made below the limit and only after full ones; the counter is kept exactly when an empty poll ended the drain |
| `SerialNumbers.PackInjective` | src/vma/dev/cq_mgr.cpp:414-425 | the packed number determines the queue and its count |
| `SerialNumbers.GlobalNamesLast` | src/vma/dev/cq_mgr.cpp:414-425 | the low word of the global number is the queue that published last, the high word how far it has counted |
| `SerialNumbers.RepeatsExactlyOnWrap` | src/vma/dev/cq_mgr.cpp:414-425 | an old global number shows up again exactly when the same queue published both and counted a multiple of 2^32 in between |
| `SerialNumbers.NeverRepeats` | src/vma/dev/cq_mgr.cpp:414-425 | while no queue has counted to 2^32, no number is published twice |
| `SerialNumbers.CqSerials.Poll` | src/vma/dev/cq_mgr.cpp:354-428 | a poll with completions publishes one new number of its queue; one without publishes none |
| `SerialNumbers.CqSerials.UpdateGlobalSn` | src/vma/dev/cq_mgr_mlx5.cpp:322-341 | the same for a batch, advancing the count by its size |
| `SerialNumbers.CqSerials.RequestNotification` | src/vma/dev/cq_mgr.cpp:1303-1335 | before any wrap the check is passed only if no queue polled a completion since the number was read; the queue is armed exactly on success |
| `SmTable.LastLineIsLast` | src/state_machine/sm.cpp:134-190 | the line that decides a cell is the matching one with the largest index |
| `SmTable.DenseTable.FillDefaults` | src/state_machine/sm.cpp:123-131 | every cell is STAY with the default, every row has the default callbacks |
| `SmTable.DenseTable.ProcessSparseTable` | src/state_machine/sm.cpp:102-198 | succeeds exactly when all lines are good, and then every cell and row callback is what the last matching line says, or the default; else it stops at the first bad line |
| `SmTable.AcceptedTargets` | src/state_machine/sm.cpp:165-175 | all targets of the built table are states or STAY if and only if no deciding line has another negative target |
| `SmTable.LineOkIff` | src/state_machine/sm.cpp:148-186 | a transition is accepted exactly if its state and event are in range, its target is not too large, and the line before it for the same cell has the default action |
| `SmTable.ReusedHasDefault` | src/state_machine/sm.cpp:181-186 | in an accepted table every line for a cell but the last has the default action |
| `SmEngine.GuardAdmitsOneTooMany` | src/state_machine/sm.cpp:239-243 | whatever lies past the table, an event keeps the state inside the table if and only if it is not the number of events |
| `SmEngine.StrayEventEscapes` | src/state_machine/sm.cpp:239-245 | that event takes the machine to the state found past the table, and there it stays |
| `SmEngine.HandleKeepsRange` | src/state_machine/sm.cpp:245-276 | handling an event keeps the current state a state of the table |
| `SmEngine.CallbacksAreHandle` | src/state_machine/sm.cpp:245-276 | leave, action and entry callbacks of one event all see the one record of that event, whatever they post |
| `SmEngine.UnlockIsLoop` | src/state_machine/sm.cpp:217-228 | unlocking with any queued events is the work loop on those events |
| `SmEngine.EngineIsFifoLoop` | src/state_machine/sm.cpp:202-280 | for every table, application, event and bound, the recursive engine makes the same callbacks in the same order and ends in the same state as a plain FIFO loop, and returns exactly when that loop runs dry |
| `SmEngine.FeedKeepsRange` | src/state_machine/sm.cpp:231-280 | on a legal table, any sequence of legal outside events leaves the state inside the table at every point |
| `SmEngine.ConvertedRunsStayInside` | src/state_machine/sm.cpp:80-198 | from short table to runs, also for the partial table of a failed conversion: every run from every state stays inside the table if and only if no deciding line has a negative target other than STAY |
| `SmEngine.NegativeTargetEscapes` | src/state_machine/sm.cpp:245-276 | such a line takes the machine out of the table as soon as its event is handled |
| `SmEngine.NegativeTargetAccepted` | src/state_machine/sm.cpp:172-176 | such lines are accepted |
| `SmEngine.StateMachine.LockInProcess` | src/state_machine/sm.cpp:202-214 | an idle machine is taken, a busy one queues the event at the end |
| `SmEngine.StateMachine.UnlockInProcess` | src/state_machine/sm.cpp:217-228 | releases the machine and processes the oldest queued event first |
| `SmEngine.StateMachine.ProcessEvent` | src/state_machine/sm.cpp:231-280 | computes the engine of the theorem, with its return code |
| `SmEngine.PostAllAppends` | src/state_machine/sm_fifo.cpp:36-61 | events posted during processing join the queue at the back, in order, and nothing else happens |
| `SmLines.EventRunsItsLines` | src/state_machine/sm.cpp:245-276 | on a converted table the calls of an event are, in order, notify, the leave callback, the action and the entry callback, each as the last line for it says, and the machine ends in that line's target |
| `SmLines.EngineInterpretsLines` | src/state_machine/sm.cpp:102-280 | whole runs of the engine on the converted table equal an interpreter that reads the lines: same calls, same order, same effect, same state |
| `RecursiveSpinLock.NextKeepsInvariant` | src/utils/lock_wrapper.h:215-273 | every single load or store of every thread keeps the invariant |
| `RecursiveSpinLock.RunKeepsInvariant` | src/utils/lock_wrapper.h:215-273 | the invariant holds after every schedule |
| `RecursiveSpinLock.MutualExclusion` | src/utils/lock_wrapper.h:225-262 | at most one thread is inside, in every interleaving |
| `RecursiveSpinLock.UnlockedReadIsExact` | src/utils/lock_wrapper.h:227-231 | the unlocked read of the owner equals self exactly when the reader holds the lock |
| `RecursiveSpinLock.CountIsDepth` | src/utils/lock_wrapper.h:229-257 | between calls the count is the holder's nesting depth, and 0 without a holder |
| `RecursiveSpinLock.AnswerIsTruth` | src/utils/lock_wrapper.h:263-267 | is_locked_by_me answers whether the caller is inside |
| `RecursiveSpinLock.HolderNeverSpins` | src/utils/lock_wrapper.h:225-240 | a holder inside a call always has an enabled step and never spins |
| `RecursiveSpinLock.EveryCallReturns` | src/utils/lock_wrapper.h:225-267 | in every interleaving lock returns one level deeper and as the owner; trylock too, unless another thread had the spin lock at the step in which it gave up; unlock returns one level up, and the last one frees the lock |
| `RecursiveSpinLock.FreeLockIsTaken` | src/utils/lock_wrapper.h:233-252 | a thread that comes to the spin lock while it is free, and then runs alone, gets it, by lock and trylock alike |
| `RecursiveSpinLock.HolderCallReturns` | src/utils/lock_wrapper.h:225-262 | a holder's lock, trylock or unlock, run alone, ends one level deeper, deeper or up, and the lock is free after the last unlock |
| `RecursiveSpinLock.WaitsIff` | src/utils/lock_wrapper.h:233-240 | only a lock that finds the spin lock with another thread waits; every other step brings the call nearer to its return |
| `RecursiveSpinLock.WaitsForAnother` | src/utils/lock_wrapper.h:225-262 | no deadlock: who waits, waits for another thread that holds the lock between two calls or can go on |
| `HashTable.OccupiedIsSize` | tools/daemon/hash.c:123-126 | the number of used slots is the number of keys |
| `HashTable.HeldOnce` | tools/daemon/hash.c:214-246 | a key sits in at most one slot |
| `HashTable.ContentsUnique` | tools/daemon/hash.c:214-246 | the slots determine the map they stand for |
| `HashTable.StoreIsUpdate` | tools/daemon/hash.c:161-184 | storing into a slot is a map update, and the value it overwrites has not been freed before |
| `HashTable.FreeIsRemoval` | tools/daemon/hash.c:186-203 | clearing a slot is a removal, and its value has not been freed before |
| `HashTable.Table.FreeValue` | tools/daemon/hash.c:171-173 | free is called on the value of a slot that holds one, and not otherwise |
| `HashTable.ProbeReaches` | tools/daemon/hash.c:226-241 | probing visits every slot |
| `HashTable.Table.constructor` | tools/daemon/hash.c:68-98 | an empty map of the given capacity |
| `HashTable.Table.Find` | tools/daemon/hash.c:214-246 | finds the key's slot if and only if the key is in the map, a free slot if and only if the table is not full; the shortcut never changes an answer |
| `HashTable.Table.Probe` | tools/daemon/hash.c:226-241 | finds a slot with the wanted key, or there is none anywhere |
| `HashTable.Table.Get` | tools/daemon/hash.c:133-145 | the map's value, or none |
| `HashTable.Table.Enum` | tools/daemon/hash.c:147-159 | the value of a used slot, none for a free one |
| `HashTable.Table.Put` | tools/daemon/hash.c:161-184 | succeeds exactly when the count is below the size; it is then a map update that calls free on the overwritten value, if any, and on nothing else |
| `HashTable.Table.Delete` | tools/daemon/hash.c:186-203 | removes the key and calls free on its value, if any, and on nothing else |
| `HashTable.Table.Destroy` | tools/daemon/hash.c:100-121 | afterwards free has been called exactly once on every value ever accepted and on nothing else |
| `HashTable.Table.CountIsSize` | tools/daemon/hash.c:123-126 | count is the number of keys |
| `ProcessStore.ProcessStore.constructor` | tools/daemon/store.c:54-59 | no process is registered |
| `ProcessStore.ProcessStore.Find` | tools/daemon/message.c:274 | finds the flow list of a process if and only if it is registered |
| `ProcessStore.ProcessStore.Register` | tools/daemon/message.c:216-247 | the process is entered with an empty list exactly when the table is not full |
| `ProcessStore.ProcessStore.Update` | tools/daemon/message.c:436-452 | a change through the address found changes the list of that process and of no other |
| `ProcessStore.ProcessStore.Remove` | tools/daemon/message.c:286 | the process and its list go |
| `Bitmap.FfsIsLowest` | tools/daemon/bitmap.h:253-263 | ffs is one plus the lowest set bit |
| `Bitmap.FirstClearBit` | tools/daemon/bitmap.h:253-263 | in a word that is not full, ffs of the complement finds the lowest clear bit |
| `Bitmap.SetBit` | tools/daemon/bitmap.h:139-145 | exactly the given bit becomes set |
| `Bitmap.ClearBit` | tools/daemon/bitmap.h:154-159 | exactly the given bit becomes clear |
| `Bitmap.Bitmap.constructor` | tools/daemon/bitmap.h:69-80 | no bit is set |
| `Bitmap.Bitmap.Set` | tools/daemon/bitmap.h:139-145 | the words after setting the bit |
| `Bitmap.Bitmap.Clear` | tools/daemon/bitmap.h:154-159 | the words after clearing the bit |
| `Bitmap.Bitmap.Test` | tools/daemon/bitmap.h:184-189 | whether the bit is set |
| `Bitmap.Bitmap.FindFirstZero` | tools/daemon/bitmap.h:253-263 | the lowest clear bit, or -1 when every bit of every word is set |
| `Bitmap.Bitmap.TestGroup` | tools/daemon/bitmap.h:201-215 | the common value of a run of bits, or -1 |
| `Bitmap.Bitmap.FindGroup` | tools/daemon/bitmap.h:228-243 | the first place from the start on where the run has the value, or -1 when there is none |
| `FlowHandles.HandleIsSum` | tools/daemon/flow.c:55-60 | the packed handle in plain arithmetic, each field truncated to its width |
| `FlowHandles.HandleRoundTrip` | tools/daemon/flow.c:55-64 | unpacking gives back each field, truncated to its width |
| `KeyedLists.FindElem` | tools/daemon/flow.c:169-174 | the list walk used at every level stops at the first element with the key |
| `FlowIds.NodeIdIsFresh` | tools/daemon/flow.c:668-704 | a 5-tuple flow gets an id not in use, and the insertion keeps the nodes strictly ascending |
| `FlowIds.NodeIdFailsIffFull` | tools/daemon/flow.c:668-704 | get_node fails for a 5-tuple flow if and only if all 4095 ids are taken |
| `FlowIds.FiveTupleId` | tools/daemon/flow.c:668-704 | a 5-tuple flow gets the id after the largest, and once that is 4095 the smallest free one |
| `FlowIds.ThreeTupleId` | tools/daemon/flow.c:662-667 | a 3-tuple flow always gets an id, fixed by its port |
| `FlowIds.ThreeTupleIdsCollide` | tools/daemon/flow.c:662-667 | two 3-tuple flows of one bucket share a node id if and only if their ports are equal or 0xFF00 apart |
| `FlowIds.SharedIdDeletesAlike` | tools/daemon/flow.c:483-511 | for flows that share interface, table, bucket and node id, del_flow does the same whichever of them it is called for |
| `FlowIds.DelNodeKeepsOk` | tools/daemon/flow.c:483-511 | deleting a node keeps the order and the legality of the others |
| `FlowIds.DelNodeCounts` | tools/daemon/flow.c:483-511 | deleting removes exactly one node with the id |
| `FlowIds.KernelTableKeeps` | tools/daemon/flow.c:593-617 | the kernel table returned belongs to the priority, fits its 16 bits, and no other priority's table changes |
| `FlowIds.TakeBitKeeps` | tools/daemon/flow.c:619-624 | a table id is a clear bit between 1 and 0x7FF, and only that bit is set |
| `FlowIds.LinkTable` | tools/daemon/flow.c:244-275 | linking a table under its new ids keeps the bitmap equal to bit 0 and the ids of the tables |
| `FlowIds.DropTableKeepsIds` | tools/daemon/flow.c:525-557 | unlinking a table frees its id and no other |
| `FlowIds.LinkedIdHasBit` | tools/daemon/flow.c:627-630 | while the ids are in order, free_htid clears a bit that exists |
| `FlowIds.NewIdHasBitIff` | tools/daemon/flow.c:244-275 | a new table has a bit if and only if a table id was left; otherwise its id is 0xFFFF, past the 64 words |
| `FlowDaemon.GetNode` | tools/daemon/flow.c:655-704 | computes the id and the insertion place of the specification |
| `FlowDaemon.GetKernelTable` | tools/daemon/flow.c:593-617 | the scan over the four slots computes the kernel table of the specification |
| `FlowDaemon.GetTableId` | tools/daemon/flow.c:619-624 | the lowest clear bit is found and set in the bitmap object |
| `FlowDaemon.FreeTableId` | tools/daemon/flow.c:627-630 | the bit is cleared in the bitmap object |
| `FlowDaemon.FlowDaemon.constructor` | tools/daemon/flow.c:105-110 | an empty tree |
| `FlowDaemon.FlowDaemon.InsertNode` | tools/daemon/flow.c:318-377 | the node level of add_flow, with every error path |
| `FlowDaemon.FlowDaemon.ReferBucket` | tools/daemon/flow.c:285-316 | the bucket level of add_flow, with every error path |
| `FlowDaemon.FlowDaemon.ReferTable` | tools/daemon/flow.c:223-283 | the table level of add_flow, with every error path |
| `FlowDaemon.FlowDaemon.Add` | tools/daemon/flow.c:116-386 | tree, handle and return code are those of the specification, whatever the environment answers |
| `FlowDaemon.FlowDaemon.DropTable` | tools/daemon/flow.c:445-558 | the table level of del_flow, with the bucket and node below it and the failures of their tc commands |
| `FlowDaemon.FlowDaemon.Del` | tools/daemon/flow.c:388-588 | tree and return code after del_flow are those of the specification, whatever the environment answers |
| `FlowAccounting.CountParent` | tools/daemon/flow.c:83-91 | at most as many flows run through an element as through the one it hangs from |
| `FlowAccounting.AddFlowCounts` | tools/daemon/flow.c:116-386 | a served add returns 0, keeps the tree well-formed, and adds one to the counts on the flow's path and to no other |
| `FlowAccounting.HandleNamesTable` | tools/daemon/flow.c:229-381 | the table field of a served flow's handle is the id of the table that holds it |
| `FlowFailures.AddCodeMeans` | tools/daemon/flow.c:116-386 | the code of add_flow tells the first thing that failed of those the flow needed |
| `FlowFailures.FailedAddLeaks` | tools/daemon/flow.c:238-369 | an add that fails late leaves exactly the references it took: on the interface, and on the table and the bucket if it got that far |
| `FlowFailures.RefusedTableKeepsId` | tools/daemon/flow.c:245-269 | a table that tc refuses keeps its id taken without a table that has it |
| `FlowRoom.ServedInstallsNodeIff` | tools/daemon/flow.c:286-292 | a served add installs a node if and only if the port is not a multiple of 256 |
| `FlowRemoval.TreeIsHeld` | tools/daemon/flow.c:445-580 | on the path of a live flow every element exists, and drops its last reference only together with its last child |
| `FlowRemoval.DelFlowCounts` | tools/daemon/flow.c:388-588 | deleting a live flow takes one from the counts on its path and from no other |
| `FlowRemoval.DelTakesFirst` | tools/daemon/flow.c:483-511 | del_flow takes out the first node with the id of the handle and leaves all others, whichever of the flows that share the id it is called for |
| `FlowRemoval.DelCodeMeans` | tools/daemon/flow.c:498-580 | told from the trees before and after, del_flow reports a failing tc command exactly when it took out the node, table or interface that the command was for |
| `FlowRuns.FailureBreaks` | tools/daemon/flow.c:212-283 | failing after the first reference leaves the interface's count too high |
| `FlowRuns.ExhaustionBreaks` | tools/daemon/flow.c:324-329 | an add that returns 0 without being served leaves the flow uncounted |
| `FlowRuns.AddKeepsAccountedIff` | tools/daemon/flow.c:116-386 | every count stays the number of live flows exactly when the add is refused before its first reference, or fully served |
| `FlowRuns.DelKeepsAccountedIff` | tools/daemon/flow.c:388-588 | the counts are right for what is left exactly when the interface can still be looked up |
| `FlowRoom.TableIdsRunOutAt` | tools/daemon/flow.c:619-624 | an interface has at most 2047 tables, and no table id is left exactly when it has 2047 |
| `FlowRoom.NodeIdsRunOutAt` | tools/daemon/flow.c:668-704 | a bucket of 5-tuple flows has at most 4095 nodes, and get_node fails exactly when it has 4095 |
| `FlowRoom.ServedIffRoom` | tools/daemon/flow.c:116-386 | an add is fully served exactly when it is not refused, every command and allocation it needs succeeds, and the interface and the bucket are below those limits where it needs a new id |
| `FlowRoom.EmptyTreeServes` | tools/daemon/flow.c:116-386 | every flow of a known type is served by an empty tree when everything succeeds |
| `FlowRoom.ExhaustionUnnoticed` | tools/daemon/flow.c:324-329 | when only the ids have run out, add_flow returns 0 and the tree does not count the flow |
| `FlowRoom.OverflowTakesAnothersNode` | tools/daemon/flow.c:324-329 | the flow that a full bucket could not take gets a handle with id 0xFEA, the node of another live flow; deleting it takes that node out of the tree |
| `FlowRoom.BucketOverflows` | tools/daemon/flow.c:324-329 | after any 4095 flows of one 5-tuple bucket, added one by one to the empty tree and all served, the next one is answered with 0 and not counted |
| `FlowRoom.BucketCanOverflow` | tools/daemon/flow.c:668-704 | there are 4096 different flows of one bucket |
| `FlowRoom.TablesOverflow` | tools/daemon/flow.c:619-624 | after any 2047 flows with a table each, added one by one to the empty tree and all served, a flow that needs one more is answered with 0 and not counted |
| `FlowRoom.TablesCanOverflow` | tools/daemon/flow.c:619-624 | there are 2048 flows with a table each |
| `FlowRuns.RunKeepsAccounted` | tools/daemon/flow.c:116-588 | over every interleaving of adds and deletes, each reference count is the number of live flows through its element, elements exist exactly where there are flows, nodes are in order and ids agree with the bitmaps |
| `FlowRuns.EmptyIffNoneLive` | tools/daemon/flow.c:560-580 | the tree is empty if and only if no flow is live |
| `FlowRuns.DeletingAllEmpties` | tools/daemon/flow.c:388-588 | deleting all flows, in any order, empties the tree |
| `DaemonProtocol.UnionSplit` | tools/daemon/message.c:274-286 | all flows are those of any one process and those of the others |
| `DaemonProtocol.LeaveCounts` | tools/daemon/message.c:274-286 | after a process has left, the tree counts the others' flows and those whose interface was gone |
| `DaemonProtocol.InitKeepsIff` | tools/daemon/message.c:196-258 | registering keeps the books in order exactly when it is refused or the process has no flows registered |
| `DaemonProtocol.InitCases` | tools/daemon/message.c:217-246 | an accepted registration enters the process without flows, registered before or not; a refused one changes nothing |
| `DaemonProtocol.RegisteredIff` | tools/daemon/message.c:196-290 | over every run a process is registered exactly when it entered and has not left since |
| `DaemonProtocol.AddUnknownIff` | tools/daemon/message.c:380-470 | an add is answered with -ENOENT exactly to an unregistered process, or when the system's own lookup says so |
| `DaemonProtocol.RegisteredAddsAreKnown` | tools/daemon/message.c:196-470 | from a process's registration until it leaves, its adds are not answered with -ENOENT for want of a registration |
| `DaemonProtocol.ThreeTupleAddsOnce` | tools/daemon/message.c:403-430 | 3-tuple adds that differ in the source alone are one flow: the second is accepted and changes nothing |
| `DaemonProtocol.FiveTuplesDiffer` | tools/daemon/message.c:407-430 | different 5-tuples are different flows |
| `DaemonProtocol.FlowAddKeepsIff` | tools/daemon/message.c:420-440 | an add message keeps the books in order exactly when it is rejected, a duplicate, refused or fully served |
| `DaemonProtocol.FlowDelKeepsIff` | tools/daemon/message.c:442-458 | a delete message keeps the books in order exactly when the flow is unknown or its interface is still there |
| `DaemonProtocol.LeaveKeepsIff` | tools/daemon/notify.c:337-353 | leaving keeps the books in order exactly when no flow of the process is on a vanished interface |
| `DaemonProtocol.StepKeepsIff` | tools/daemon/message.c:196-476 | for every message, the tree stays equal to the union of the registered processes' flows exactly under its condition |
| `DaemonProtocol.RunKeepsInvariant` | tools/daemon/message.c:196-476 | over every orderly run, the flows in the tree are exactly those of the registered processes, and no process has a flow twice |
| `DaemonProtocol.LeaveRemovesExactly` | tools/daemon/message.c:260-292 | leaving removes all of the process's flows and none of any other's, at every element of the tree |
| `DaemonProtocol.FlowAddCodeMeans` | tools/daemon/message.c:420-475 | a well-formed add is answered with 0 exactly when the flow is on the list afterwards; an error means that no list changed |
| `Daemon.DeletedIsGone` | tools/daemon/message.c:442-458 | after a delete message the flow is not on the list |
| `DaemonProtocol.AllGoneEmpties` | tools/daemon/message.c:260-292 | when every process has left the tree is empty |
| `Daemon.Search` | tools/daemon/message.c:421-429 | finds the first equal flow of the list |
| `Daemon.Daemon.constructor` | tools/daemon/store.c:54-59 | a daemon without processes and flows, on an empty hash table, with its books in order |
| `Daemon.Daemon.ProcInit` | tools/daemon/message.c:196-258 | performs the protocol's step on the hash table: succeeds exactly when both allocations do and the table has room, and then the process is entered without flows; on failure nothing changes and the code tells why |
| `Daemon.Daemon.ProcFlowAdd` | tools/daemon/message.c:363-440 | performs the protocol's step on the hash table and the tree and returns its code |
| `Daemon.Daemon.ProcFlowDel` | tools/daemon/message.c:442-458 | performs the protocol's step on the hash table and the tree and returns its code |
| `Daemon.Daemon.ProcExit` | tools/daemon/message.c:260-292 | performs the protocol's step, deleting the flows one by one |
| `Daemon.Daemon.CleanProcess` | tools/daemon/notify.c:266-362 | cleans up exactly when one of the checks finds the process gone, and reports 0 exactly when it was registered |
| `Checksum.OnesSumIsRep` | tools/daemon/notify.c:377-399 | the one's complement sum depends only on the plain sum |
| `Checksum.FinishIsComplement` | tools/daemon/notify.c:393-396 | two folds give the complement of the one's complement sum if and only if the second fold does not carry |
| `Checksum.CsumIsComplement` | tools/daemon/notify.c:377-399 | up to 65538 words the result is the complement of the one's complement sum |
| `Checksum.LongBuffersFail` | tools/daemon/notify.c:377-399 | for every larger number of words there is a buffer with a wrong result |
| `Checksum.StoredChecksumVerifies` | tools/daemon/notify.c:424-449 | stored in its zeroed field, the checksum makes the checksum of the whole zero |
| `Checksum.CalcCsum` | tools/daemon/notify.c:377-399 | computes the sum of the words, an odd last byte included, folded twice and complemented |

## Left out

- Flow messages other than init, flow and exit: `proc_msg_state`, the per-process table of sockets and the resets that `clean_process` sends for them are not modelled.
- FlowDaemon.FlowDaemon.Del: unlinking a table whose id is 0xFFFF makes `free_htid` write past the 64 words of the bitmap (tools/daemon/flow.c:554 and 629), and the model leaves the bitmap alone there. `FlowIds.NewIdHasBitIff` with `FlowRoom.TableIdsRunOutAt` gives the condition: the table was linked as the 2048th of its interface. `FlowIds.LinkedIdHasBit` excludes it while the tree is accounted.
- Allocation failure inside the `hash_create` of the daemon's own table and inside `bitmap_create`, and the check that a hash size is prime: a table is created with any positive size.
- hash values that are NULL or stored under two keys: pointers are handed over once, as the daemon does.
- DeviceMemory.DmMgr.CopyData: tx.dev_mem_length is kept in a map from buffers to lengths instead of in the buffer; releases come oldest first or for buffers without device memory, as the transmit queue issues them.
- BufferPool.BufferPool.PutBuffers: callers put back only buffers that are out (`PutAgainMakesCircle` says what happens otherwise); the dereferencing variant `put_buffers_after_deref_thread_safe` and the locks around the operations are not modelled.
- BufferPool.BufferPool.PutQueue: the lists of the queue are disjoint and hold buffers that are out.
- CompletionRing.Ring.GetCqe64: device steps and consumer steps are atomic, and loads and stores are sequentially consistent; memory barriers and byte swapping of the doorbell are not modelled.
- RecursiveSpinLock.RunKeepsInvariant: loads and stores are sequentially consistent, and the spin lock below is one atomic step.
- SmEngine.StateMachine.ProcessEvent: proved for calls that return, with a ghost bound on the events that follow; for calls that do not, the theorem compares engine and loop for every bound.
- SmEngine.ConvertedRunsStayInside: outside events and callbacks never post the number of events as an event; `SmEngine.GuardAdmitsOneTooMany` says what that event does.
- CompletionQueue.CqMgr.DrainAndProcess: the per-queue statistics, the hot buffer of the mlx5 poll and the branches of DEFINED_SOCKETXTREME are not modelled; a recycled packet has no other reference; the batch of a posting is one step.
- SerialNumbers.CqSerials.Poll: publishing the two halves of a number is one step.
- Bitmap.Bitmap.TestGroup: the empty run at the end of a bitmap that fills its last word is excluded, because the code reads past the words there.
- CompletionQueue.CqMgr.ProcessElement: the buffer of a failed completion counts as elsewhere; the code hands it to its owner, or drops the descriptor when it has none.
- CompletionQueue.CqMgr.PollAndProcessElementRx: completions that are not receives are not modelled, and m_b_was_drained follows cq_mgr.cpp where the mlx5 variant also sets it on an empty poll.
- Daemon.Daemon.ProcInit: no process has the pid 0xFFFFFFFF, the key of a free slot.
- Verbs, tc and interface lookups, sockets, clocks and shared memory appear only as answers that are parameters.
