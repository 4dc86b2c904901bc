# LughOS: the transactional and message-passing core, in Dafny

This project models the parts of the LughOS kernel that keep promises over whole runs, and proves
those promises: the workflow engine with its checkpoint store and update pipeline, the in-kernel
messaging layer down to its message pool and heap, capability and domain enforcement over tasks
and channels, the audit stream and the reader that replays it, the scheduler, and the page frame
allocator.

Each component has the same shape. A specification describes the component as a value and each
call as a function from value to value. A class holds the tables, rings and bitmaps of the C code,
and each of its methods, with the C code's loops, is proved to make the step the specification
describes. Lemmas then state what every run of steps keeps.

| files | what they hold |
|---|---|
| `Workflow.dfy`, `WorkflowLaws.dfy` | the engine; atomicity, recovery, the trace grammar |
| `Tables.dfy`, `Memory.dfy`, `Checkpoints.dfy`, `Update.dfy` | keyed tables as maps, stretches of memory, the checkpoint store, the five-step update |
| `NngSpec.dfy`, `NngLaws.dfy`, `NngDelivery.dfy`, `NngReplies.dfy`, `NngTurns.dfy`, `NngIntact.dfy`, `NngPeers.dfy`, `NngCodes.dfy` | the messaging layer as a state machine, and its laws |
| `Heap.dfy`, `NngMemory.dfy`, `NngCopies.dfy`, `NngPool.dfy`, `NngQueues.dfy`, `Nng.dfy` | heap with its bytes, message headers and bodies in it, copies of them, message pool, ring queues and sockets, refining that machine |
| `Crc.dfy`, `Messages.dfy` | the checksum; kernel messages as bodies and back |
| `KernelSpec.dfy`, `KernelLaws.dfy` | tasks, channels and domains as a state machine, and its laws |
| `Bits.dfy`, `Domains.dfy`, `TaskTable.dfy`, `Auditor.dfy`, `Kernel.dfy` | the kernel's tables, refining that machine |
| `Records.dfy`, `Replay.dfy`, `Audit.dfy`, `AuditHistory.dfy` | the 44-byte record, the replay, its agreement with the tables and with what was done |
| `Telemetry.dfy` | the message ring, the transaction log and the exporter's tick |
| `RoundRobin.dfy`, `Frames.dfy` | the scheduler; the frame allocator |

`dafny verify dfyconfig.toml` checks everything.

## Modelling decisions

- Masked-interrupt sections are atomic steps, and the tick counter is an input of the calls that
  read it.
- The running task is always an entry of the task table, and a task id is its slot plus one
  (`TaskTable.Table.Find`).
- Workflow steps are functions on an arbitrary world type with an integer result. They do not call
  back into the engine. `wf_emit` is a ghost trace whose entries carry the world at that moment, so
  that a trace position stands for a crash point.
- The heap is its bytes. A message is a 24-byte header in one block and a body in another, found
  through the header; `alloc_memory` and `free_memory` clear a block, and an append writes at the
  body pointer plus the length it reads there, up to 256 bytes whatever the block's size. Beside
  the bytes, `Pool.live` and the bodies in `NngSpec` are ghosts of what was written. A copy of a
  message is made as the C code makes it: the two blocks first, then what the source's header
  names by then, byte by byte, and so once more for every recipient.
- The flag `intact` says that no call so far has written a body past its block. While it is true
  the heap holds the bodies (`NngPool.Pool.InHeap`, `Nng.Sockets.NetIsInHeap`), and the class makes
  the steps of `NngSpec`. Beyond the first write past a block the laws are about the model only: a
  header that has been overwritten makes the C code write wherever its bytes point, and the model
  does not make writes or reads outside the heap region.
- A handle that is no live message stands for a null or invalid pointer.
- `NngSpec` reports EINVAL for a send of a message the caller does not own; `Nng.Sockets.Send` asks
  its caller for an owned message or null, as the C code does.
- The kernel class uses the messaging layer through the functions that `Nng.Sockets` is proved to
  implement.
- Records that the replay ignores (foreign ones, and the kinds for messages, drops, heartbeats,
  denials, faults and workflow steps) may appear anywhere in the audit stream.

## Findings

- A body longer than 64 bytes need not arrive as it was sent. `nng_msg_alloc` with size 0 takes a
  64-byte block, and `nng_msg_append` bounds the body by 256. `NngCopies.LongCopyDiffers` appends
  65 bytes to a message in the first blocks of an empty heap: the copy's header lands on the last
  byte, and the copy ends in 0xC0 whatever was sent. A copy arrives as sent, whatever the bytes,
  exactly when the source's body is clear of the two blocks that the copy takes
  (`NngCopies.ArrivesExactly`). Bytes stay clear of every other block exactly when their block
  holds them (`Heaps.ReachIff`). It is sufficient that no call writes past a block: then the heap
  holds what was sent (`Nng.Sockets.NetIsInHeap`). Which calls do is `NngIntact.Overruns`, and a
  caller avoids it who sends nothing above 64 bytes and appends nothing that the requested block
  does not hold (`NngIntact.IntactWhileFitting`). A kernel message stays within that bound exactly
  when its payload has at most 58 bytes (`Messages.RoundTrip`).
- Recovery does not cover a crash between a step's return and the advance of `done_count`.
  `WorkflowLaws.WindowBehindStepOk` gives a run. With undos that tell worlds apart
  (`Distinguishing`), a slot abandoned behind STEP_OK recovers exactly when the step's effect is
  not visible (`WorkflowLaws.RecoveryBehindStepOk`). At the begin record, the intents and the
  failure record it always does, and between two undos it does if undos can be repeated
  (`WorkflowLaws.RecoveryFromRecord`) or, if they tell worlds apart, exactly when what has been
  undone was not visible (`WorkflowLaws.RecoveryTells`).
- `workflow_recover` reverses slots in table order, not in the reverse of the order in which they
  ran. `WorkflowLaws.RecoveryOrderMatters` gives two slots whose world does not come back. With
  undos that tell worlds apart it comes back exactly when the world recovery found looks as if the
  slots had run one after another in falling slot order (`WorkflowLaws.RecoveryExactly`). Without
  that hypothesis it does from such a world (`WorkflowLaws.RecoveryInReverse`), and each slot's part
  does when no undo of one slot is visible to another (`WorkflowLaws.RecoveryRestoresEach`).
- The update pipeline's first undo is not idempotent. A crash right behind it leaves the store
  restored, but recovery then reports failure (`Update.SecondRemovalFails`). Over all non-terminal
  records of an update, recovery is clean and restores exactly when the record is neither the
  STEP_OK of the checkpoint step nor an UNDO_OK (`Update.UpdateRecoversExactly`).
- An update leaves the checkpoint table as it was exactly when its checkpoint name was absent or
  its checkpoint could not be taken (`Update.UpdateLeavesNoTrace`). Names from ids below 2^32 do
  not collide (`Update.NextNameAbsent`), and the exact collision condition is
  `UpdateKeys.NamesDistinct`.
- With the in-memory storage backend the FAILED branch of `apply_update` is never taken
  (`Update.ApplyUpdate`).
- The comment at kernel/sched/task.c:54-56 says that the root task is never scheduled because it
  stays RUNNING. The scheduler turns every RUNNING task into a READY one first, so the root task
  takes part in the rotation. The model follows the code.

## Model

| member | source | states |
|---|---|---|
| `WorkflowEngine.Engine.constructor` | services/workflow/workflow.c:30-39 | all slots start free and the trace empty |
| `WorkflowEngine.Engine.ActiveCount` | services/workflow/workflow.c:30-39 | the number of slots that are not idle |
| `WorkflowEngine.Engine.Begin` | services/workflow/workflow.c:111-142 | takes the lowest free slot exactly when there are 1 to 8 steps, all with a run callback, and one is idle; a refusal changes nothing |
| `WorkflowEngine.Engine.Release` | services/workflow/workflow.c:144-155 | frees the one slot named and touches no other |
| `WorkflowEngine.Engine.Unwind` | services/workflow/workflow.c:168-209 | undoes the completed steps in reverse, ends ROLLED_BACK or FAILED, and writes the specified trace |
| `WorkflowEngine.Engine.RunForward` | services/workflow/workflow.c:213-236 | runs up to the first failing step, with its world, cursor and trace |
| `WorkflowEngine.Engine.Run` | services/workflow/workflow.c:213-242 | world, status, trace and result of a whole run; refuses a slot that is not RUNNING |
| `WorkflowEngine.Engine.RecoverOne` | services/workflow/workflow.c:264-292 | an abandoned slot is unwound and freed, or kept as FAILED |
| `WorkflowEngine.Engine.Recover` | services/workflow/workflow.c:264-292 | the table, world and result of recovering every slot in turn |
| `WorkflowLaws.UnwindRestores` | services/workflow/workflow.c:168-209 | undoing steps k-1 to j brings back the world before step j |
| `WorkflowLaws.RunIsAtomic` | services/workflow/workflow.c:213-242 | a run commits all effects, or looks as if it never began, or is FAILED because an undo failed |
| `WorkflowLaws.AllOrNothing` | services/workflow/workflow.c:213-242 | with compensated steps, from every world: all the effects or exactly the initial world |
| `WorkflowLaws.UndosFollowSteps` | services/workflow/workflow.c:168-209 | the undos called are those of the completed steps that have one |
| `WorkflowLaws.UndoneOnceInReverse` | services/workflow/workflow.c:168-209 | each of them exactly once, in strictly falling order |
| `WorkflowLaws.UndoFailsIff` | services/workflow/workflow.c:168-209 | an unwind fails exactly when some undo it calls returns non-zero |
| `WorkflowLaws.UndoRecordsTell` | services/workflow/workflow.c:168-209 | an undo's record carries the code it returned and says OK exactly if that is 0 |
| `WorkflowLaws.ForwardRecordsTell` | services/workflow/workflow.c:213-236 | an intent before each completed step and an OK behind it, with the run's id, while it is RUNNING |
| `WorkflowLaws.FailureRecordsTell` | services/workflow/workflow.c:168-242 | the failing step's record carries its code, and the last record tells how the unwind ended |
| `WorkflowLaws.TraceTellsStatus` | services/workflow/workflow.c:86-107 | every run's trace is in the grammar, and reading it alone yields the terminal status |
| `WorkflowLaws.PrefixReads` | services/workflow/workflow.c:86-107 | no prefix of a run's trace leaves the grammar |
| `WorkflowLaws.IntentMeansInside` | services/workflow/workflow.c:213-242 | a trace cut behind the intent of step i is an abort inside step i and nothing else |
| `WorkflowLaws.RecoveryFromBoundary` | services/workflow/workflow.c:264-292 | a slot abandoned at a step boundary recovers to the world its workflow began in |
| `WorkflowLaws.RecoveryFromUnwind` | services/workflow/workflow.c:264-292 | so does one abandoned between two undos, if undoing a step not in effect is a successful no-op |
| `WorkflowLaws.RecoveryBehindStepOk` | services/workflow/workflow.c:228-236 | a slot abandoned behind STEP_OK, with the effect not yet counted, recovers exactly when that effect is not visible, for undos that tell worlds apart |
| `WorkflowLaws.RecoveryFromRecord` | services/workflow/workflow.c:264-292 | recovery from every non-terminal record of a run: it restores, between two undos if undos can be repeated, except behind STEP_OK, and there, for undos that tell worlds apart, exactly when the step's effect is not visible |
| `WorkflowLaws.RecoveryTells` | services/workflow/workflow.c:264-292 | for undos that tell worlds apart, recovery from any record restores exactly when the record's world looks like the one behind the steps its cursor counts |
| `WorkflowLaws.WindowBehindStepOk` | services/workflow/workflow.c:228-236 | a run that recovery does not restore, abandoned behind STEP_OK, whose undos tell worlds apart |
| `WorkflowLaws.RecoverySettles` | services/workflow/workflow.c:264-292 | afterwards no slot is RUNNING or ROLLING_BACK; success is reported exactly when none that was became FAILED |
| `WorkflowLaws.RecoveryOfSlot` | services/workflow/workflow.c:264-292 | a slot that is RUNNING or ROLLING_BACK is FAILED if it has no steps or an undo fails by then, and free otherwise; any other slot stays |
| `WorkflowLaws.RecoveryOfOne` | services/workflow/workflow.c:264-292 | recovery of a single busy slot leaves the world, result, slots and trace that the laws about its last record speak of |
| `WorkflowLaws.RollingBackRecovers` | services/workflow/workflow.c:264-292 | a slot left ROLLING_BACK between two undos is restored and freed, if undos can be repeated |
| `WorkflowLaws.RecoveryRestoresEach` | services/workflow/workflow.c:264-292 | a successful recovery restores every abandoned slot's part of the world, however runs interleaved |
| `WorkflowLaws.RecoveryInReverse` | services/workflow/workflow.c:264-292 | slots that ran one after another in falling slot order are restored in full, dependent or not |
| `WorkflowLaws.RecoveryExactly` | services/workflow/workflow.c:264-292 | for undos that tell worlds apart, a successful recovery restores exactly when the world it found looks as if the slots had run one after another in falling slot order |
| `WorkflowLaws.RecoveryOrderMatters` | services/workflow/workflow.c:264-292 | two dependent slots, with undos that tell worlds apart, that a successful recovery does not restore |
| `NamedTables.KeyEqual` | services/storage/transactions.c:50-57 | equality of C strings |
| `NamedTables.Find` | services/storage/transactions.c:59-68 | the entry of a key, and a miss exactly when the map lacks it |
| `Tables.FindFree` | services/storage/transactions.c:123-139 | a free entry, and none exactly when the map is as large as the table |
| `Checkpoints.Storage.constructor` | services/storage/transactions.c:36-48 | no buffer and no checkpoint, ids from 1 |
| `Checkpoints.Storage.GenerateId` | services/storage/transactions.c:17-28 | ids count up by one |
| `Checkpoints.Storage.RegisterBuffer` | services/storage/transactions.c:70-96 | binds or rebinds a key to a memory region, with all its refusals |
| `Checkpoints.Storage.AcquireSlot` | services/storage/transactions.c:123-139 | reuses the key's slot or takes a free one; fails exactly when the key is new and the table full or the key too long |
| `Checkpoints.Storage.CreateCheckpoint` | services/storage/transactions.c:165-180 | stores the source buffer's bytes under the name; fails exactly when unregistered or without room |
| `Checkpoints.Storage.RestoreCheckpoint` | services/storage/transactions.c:182-194 | writes the snapshot back into the buffer and nothing else |
| `Checkpoints.Storage.RemoveCheckpoint` | services/storage/transactions.c:196-204 | takes the name out of the map, and fails exactly when it is not there |
| `Checkpoints.ApplyOk` | services/storage/transactions.c:50-204 | every operation keeps the store within its tables and its keys unique |
| `Checkpoints.SucceedsIff` | services/storage/transactions.c:70-204 | when each store operation succeeds, exactly, from the maps alone |
| `Checkpoints.RebindTakesEffect` | services/storage/transactions.c:70-96 | a key that is registered again names its new region: a checkpoint of it holds the bytes there |
| `Checkpoints.RebindLeavesOthers` | services/storage/transactions.c:70-96 | and every other key keeps its region |
| `Checkpoints.RestoreReturnsSnapshot` | services/storage/transactions.c:165-194 | after any writes and any operations on other names, restore brings back the bytes of create time |
| `Checkpoints.CreateThenRemove` | services/storage/transactions.c:165-204 | remove undoes create exactly when the name was new |
| `UpdateKeys.BuildName` | services/update/update.c:55-74 | the name built in the 256-byte buffer: up to 200 characters of the path, the suffix, and the low 32 bits of the id in decimal; no bound cuts anything but the path |
| `UpdateKeys.DigitsBackwards` | services/update/update.c:64-69 | the digit buffer read backwards is the decimal numeral |
| `UpdateKeys.DecimalInjective` | services/update/update.c:62-72 | numerals determine their numbers |
| `UpdateKeys.DecimalStands` | services/update/update.c:62-72 | reading a numeral digit by digit gives its number |
| `UpdateKeys.NamesDistinct` | services/update/update.c:55-74 | two names coincide exactly when the clipped paths and the low 32 bits of the ids do |
| `UpdateKeys.FreshNameAbsent` | services/update/update.c:55-74 | a name from a fresh id is not among names from older ids |
| `Update.NextNameAbsent` | services/update/update.c:55-74 | after any history of update starts, steps and undos a name from the next id is not in the checkpoint table |
| `Update.FirstFailureOf` | services/update/sandbox.c:196-274 | which step of the pipeline is the first to fail: the checkpoint, the signature or the sandbox, from the store, the digest, the size and the first four bytes |
| `Update.PassesIff` | services/update/sandbox.c:196-274 | an update goes through exactly when there is a backend that knows the path and has room for the name, the digest is the given hash, and the image has 64 to 65536 bytes and begins with the ELF magic |
| `Update.StepStatuses` | services/update/sandbox.c:196-274 | the status each step leaves |
| `Update.CheckpointKeeps` | services/update/sandbox.c:196-212 | the checkpoint step keeps the bytes of the path's region |
| `Update.InstallUndone` | services/update/sandbox.c:251-263 | the undo of the install step writes these bytes back, whatever has been written since, with its exact condition |
| `Update.RejectedRunRollsBack` | services/update/sandbox.c:196-274 | a rejected update ends ROLLED_BACK with buffers and memory unchanged |
| `Update.PassingRunCommits` | services/update/sandbox.c:196-274 | a passing update commits |
| `Update.ApplyUpdate` | services/update/sandbox.c:279-328 | the final world and result; success exactly for an idle slot, an installed backend, a known path, room for the name, a matching digest and a well-formed image; the stage holds the image then and is untouched otherwise; slots come back as they were |
| `Update.UpdateLeavesNoTrace` | services/update/sandbox.c:279-328 | on COMPLETE and ROLLBACK alike buffers and bytes are unchanged, and the table is exactly when the name was absent or could not be taken |
| `Update.StepsReversible` | services/update/sandbox.c:196-274 | the five steps meet the engine's hypotheses |
| `Update.UpdateRecovers` | services/update/sandbox.c:196-274 | an update abandoned at any step boundary is undone by recovery |
| `Update.UpdateBehindStepOk` | services/update/sandbox.c:196-220 | abandoned behind the STEP_OK of step i, an update is recovered exactly when i is not the checkpoint step |
| `Update.UpdateRecoversExactly` | services/update/sandbox.c:196-274 | over every non-terminal record: recovery is clean and restores exactly when the record is neither the STEP_OK of the checkpoint step nor an UNDO_OK |
| `Update.SecondRemovalFails` | services/update/sandbox.c:213-220 | abandoned behind its last undo, the update is restored but recovery fails |
| `Crc.Checksummer.constructor` | kernel/nngcompat.c:23-31 | every table entry is eight steps of the reflected division |
| `Crc.Checksummer.Checksum` | kernel/nngcompat.c:33-43 | the table-driven checksum is the bit-by-bit CRC of section 8 of RFC 1952 |
| `Crc.ChecksumInPieces` | kernel/nngcompat.c:38-42 | the inner update composes over concatenation |
| `Crc.CorruptByteDetected` | kernel/nngcompat.c:33-43 | changing one byte anywhere changes the checksum |
| `Crc.CheckValue` | kernel/nngcompat.c:33-43 | the reference gives the published value for a zero byte |
| `Heaps.BlocksDisjoint` | kernel/mm/memory.c:72-103 | no two heap blocks overlap |
| `Heaps.ReachIff` | kernel/mm/memory.c:72-103 | bytes from the start of a block on stay clear of every other block exactly when the block holds them |
| `Heaps.Heap.constructor` | kernel/mm/memory.c:72-103 | the four classes of 32 blocks are laid out and all free |
| `Heaps.Heap.FindSizeClass` | kernel/mm/memory.c:114-124 | the smallest class that fits, or none |
| `Heaps.Heap.Alloc` | kernel/mm/memory.c:133-167 | the lowest free block of the right class, cleared; 0 exactly when the size is 0 or too large or the class is exhausted |
| `Heaps.Heap.Free` | kernel/mm/memory.c:175-203 | clears and returns a live block, ignores any other address |
| `NngPool.Pool.Alloc` | kernel/nngcompat.c:224-248 | a live, empty message on two blocks of its own; every failure gives back what it took; exact error codes; the bytes of no other message change meaning |
| `NngPool.Pool.Free` | kernel/nngcompat.c:250-263 | the message and both its blocks go, and every other message still lies where it did; EINVAL exactly for a handle that is not live |
| `NngPool.Pool.Append` | kernel/nngcompat.c:265-276 | writes bytes, length and checksum where the header says, and refuses by the length it reads there; while no body has run over its block that is an append within 256 bytes, and afterwards none has exactly when the new body fits its own |
| `NngPool.Pool.InHeap` | kernel/nngcompat.c:265-276 | while no body has run over its block, the heap holds every live message, within its block |
| `NngPool.Pool.Copy` | kernel/nngcompat.c:125-133 | the memory of a copy made behind its allocation; while no body has run over its block the copy is the source, with the exact condition, and none has afterwards exactly when it fits a small block; a failure gives back what it took |
| `NngPool.AppendView` | kernel/nngcompat.c:265-276 | an append within its block gives its message the longer body and leaves every other message's bytes alone |
| `NngPool.FillView` | kernel/nngcompat.c:130-133 | copying another message's body into a new one leaves every message in its blocks as long as the body fits |
| `NngPool.FreeView` | kernel/nngcompat.c:250-263 | clearing a message's two blocks leaves every other message's bytes alone |
| `NngMemory.AppendHolds` | kernel/nngcompat.c:265-276 | an append at the body pointer plus the length, clear of the header, reads back as the body followed by the data |
| `NngMemory.AppendApart` | kernel/nngcompat.c:265-276 | such an append changes no message whose header and body lie elsewhere |
| `NngMemory.NewBody` | kernel/nngcompat.c:224-276 | a new message with a body reads back as that body |
| `NngCopies.LongCopyDiffers` | kernel/nngcompat.c:125-138 | in the blocks an empty heap hands out, a copy of a 65-byte message has 0xC0 for its last byte, so it is the message exactly when that byte was 0xC0 |
| `NngCopies.ArrivesExactly` | kernel/nngcompat.c:125-138 | a copy of an n-byte body is what was sent, whatever the bytes, exactly when the body is clear of the two blocks that the copy takes |
| `NngPool.BackedInsert` | kernel/nngcompat.c:224-248 | a new message keeps every message on two blocks that no other has, and in them |
| `NngPool.BackedDelete` | kernel/nngcompat.c:250-263 | so does freeing one |
| `NngQueues.EnqueueAppends` | kernel/nngcompat.c:113-122 | the ring appends to its FIFO; cells outside the window stay null |
| `NngQueues.DequeueTakes` | kernel/nngcompat.c:511-515 | the ring gives up its oldest handle; cells outside the window stay null |
| `NngQueues.CellsAreItems` | kernel/nngcompat.c:311-315 | a scan over all cells meets exactly the queued handles |
| `NngQueues.DeliverView` | kernel/nngcompat.c:125-138 | a delivery extends one queue by one body and keeps every handle in one place |
| `NngQueues.ReceiveView` | kernel/nngcompat.c:511-515 | a receive moves the oldest message of one queue to the caller |
| `NngQueues.CloseView` | kernel/nngcompat.c:311-315 | a close frees what the queue held and nothing else |
| `Nng.Sockets.constructor` | kernel/nngcompat.c:179-201 | the initial net over the whole heap, with nothing overrun |
| `Nng.Sockets.NetIsInHeap` | kernel/nngcompat.c:113-138 | while no body has run over its block, every body held or waiting is what the heap holds behind its handle |
| `Nng.Sockets.Enqueue` | kernel/nngcompat.c:113-122 | appends a handle, or ENOMEM exactly when the ring is full |
| `Nng.Sockets.DeliverCopy` | kernel/nngcompat.c:125-138 | queues a copy of the message, read behind the allocation, or changes no queue; while no body has run over its block this is the net's delivery, with its exact condition |
| `Nng.SubAccepts` | kernel/nngcompat.c:142-153 | some stored topic is a prefix of the body |
| `Nng.Sockets.CollectPeers` | kernel/nngcompat.c:158-175 | the matching peers in pipe order, at most 16 |
| `NngPeers.PeersCount` | kernel/nngcompat.c:158-175 | a socket is among the matching peers exactly as often as the sender's pipes lead to it |
| `NngPeers.PeersInOrder` | kernel/nngcompat.c:158-175 | peers come in pipe order |
| `NngPeers.PeersAreFirst` | kernel/nngcompat.c:158-175 | the collected peers are the first sixteen |
| `NngPeers.PeerIff` | kernel/nngcompat.c:158-175 | a socket is a peer exactly if a pipe leads to it and it speaks the protocol, unless sixteen come before it |
| `Nng.Sockets.MsgAlloc` | kernel/nngcompat.c:224-248 | the net's step for an allocation, with a handle nobody holds |
| `Nng.Sockets.MsgFree` | kernel/nngcompat.c:250-263 | the net's step for a free |
| `Nng.Sockets.MsgAppend` | kernel/nngcompat.c:265-276 | the net's step for an append, while no body has run over its block |
| `Nng.Sockets.Create` | kernel/nngcompat.c:288-305 | the first free socket id, with cleared protocol state |
| `Nng.Sockets.Close` | kernel/nngcompat.c:307-324 | frees the queue, cuts every pipe at the socket, frees the id |
| `Nng.Sockets.Connect` | kernel/nngcompat.c:326-340 | the first free pipe joins two open sockets |
| `Nng.Sockets.Subscribe` | kernel/nngcompat.c:344-356 | appends the topic, with all refusals |
| `Nng.Sockets.Unsubscribe` | kernel/nngcompat.c:358-375 | removes the first equal topic by moving the last into its place |
| `Nng.Sockets.RouteBody` | kernel/nngcompat.c:383-482 | the routing of every protocol: to one socket as specified while no body has run over its block, to several as specified as long as no copy among them does either |
| `Nng.Sockets.Send` | kernel/nngcompat.c:379-486 | routes the message and always frees it; the net's step if no body has run over its block and this call writes none past its block, and for a single recipient even then |
| `Nng.Sockets.Receive` | kernel/nngcompat.c:490-516 | closes an expired survey, then hands over the oldest message |
| `NngLaws.CallKeeps` | kernel/nngcompat.c:224-516 | every call keeps the balance and the bounds |
| `NngLaws.RunConserves` | kernel/nngcompat.c:224-516 | in every run pool slots are the held plus the queued messages, heap blocks taken are two each, closed sockets are empty, pipes join open sockets |
| `NngDelivery.FanOutDelivers` | kernel/nngcompat.c:390-397 | for bodies within a small block: one copy, as sent, per entry that wants the body; one is missing only if the queue, pool or heap is exhausted in the end |
| `NngDelivery.PublishDelivers` | kernel/nngcompat.c:390-397 | for bodies within a small block: a publish appends body-equal copies to the subscribers whose topics match and changes no other queue |
| `NngPeers.FanReaches` | kernel/nngcompat.c:390-453 | a publish, broadcast or survey gives a socket as many copies as pipes lead to it, none without the matching protocol and topic, and fewer only past sixteen peers or when queue, pool or heap is exhausted |
| `NngPeers.OneReaches` | kernel/nngcompat.c:399-477 | a push, request, reply, response or pair send appends to the queue of the one it is for, if that has room, and to no other, and its code says so |
| `NngPeers.SendReaches` | kernel/nngcompat.c:379-486 | a send changes no queue but those of sockets that a pipe of the sender leads to, apart from a pending requester's or surveyor's |
| `NngDelivery.FirstInFirstOut` | kernel/nngcompat.c:113-122 | over any stretch of a run without a close whose calls keep to their blocks, what was taken then waits equals what waited then was added, and the heap holds it |
| `NngReplies.NoReplyWithoutRequest` | kernel/nngcompat.c:410-432 | replies plus a pending request never exceed delivered requests, and the pending address is the latest requester |
| `NngReplies.ReplyGoesToRequester` | kernel/nngcompat.c:425-432 | a reply within a small block reaches the queue of the latest requester, as sent, and no other |
| `NngReplies.NoResponseWithoutSurvey` | kernel/nngcompat.c:441-469 | responses plus a pending one never exceed the surveys that arrived, however many pipes each came over, and the pending address is the latest surveyor |
| `NngReplies.ResponseGoesToSurveyor` | kernel/nngcompat.c:455-469 | a response within a small block reaches the queue of the latest surveyor, as sent, and no other |
| `NngReplies.LateResponseIsDropped` | kernel/nngcompat.c:455-469 | without an open survey in time nothing is delivered and an error returned |
| `NngReplies.ResponseInTime` | kernel/nngcompat.c:441-469 | a response within 100 ticks of its survey reaches the surveyor, whatever others do in between, if there is room |
| `NngReplies.PendingStep` | kernel/nngcompat.c:410-432 | a request's return address is set by its delivery, cleared by the reply or a new socket, and touched by nothing else |
| `NngReplies.SurveyStep` | kernel/nngcompat.c:441-469 | a survey's return address is set by its arrival, cleared by a response in time or not or a new socket, and touched by nothing else |
| `NngReplies.ReceiveExpires` | kernel/nngcompat.c:490-516 | a receive ends the receiver's own survey exactly when it is past its deadline |
| `NngTurns.TurnsBalance` | kernel/nngcompat.c:400-408 | how often each entry's turn comes in k sends, exactly |
| `NngTurns.TurnsAreFair` | kernel/nngcompat.c:400-408 | the floor or the ceiling of k/n for every entry, and never two apart |
| `NngTurns.PushTurns` | kernel/nngcompat.c:400-408 | over consecutive sends the cursor follows those turns whether or not deliveries succeed |
| `NngTurns.PushesAreFair` | kernel/nngcompat.c:400-408 | over a run of k pushes to n peers every entry is the target of k/n of them, rounded down or up, whether or not deliveries succeed |
| `NngTurns.UnsubscribeRemovesOne` | kernel/nngcompat.c:358-375 | the multiset of topics loses exactly one matching topic, or nothing and ENOENT |
| `NngTurns.SubscribeWidens` | kernel/nngcompat.c:344-356 | after a subscribe a body is accepted exactly if it was before or the topic is its prefix |
| `NngCodes.MessageCodes` | kernel/nngcompat.c:224-276 | the code of every message call, from the state before |
| `NngCodes.MessageCosts` | kernel/nngcompat.c:224-263 | what a message takes, and that freeing it gives exactly that back |
| `NngCodes.SocketCodes` | kernel/nngcompat.c:288-516 | the code of every socket call, from the state before |
| `NngCodes.TopicCodes` | kernel/nngcompat.c:344-375 | the code of subscribe and unsubscribe, from the state before |
| `NngCodes.CreatedSocket` | kernel/nngcompat.c:288-305 | a new socket is the lowest free one and starts without cursor, addresses, survey or topics |
| `NngCodes.ConnectedPipe` | kernel/nngcompat.c:326-340 | a connection is the lowest free pipe, in the direction asked for |
| `NngCodes.SendCodes` | kernel/nngcompat.c:379-486 | a send is refused exactly for a closed socket or a message not held, and otherwise takes the message |
| `NngCodes.RequestTurn` | kernel/nngcompat.c:410-423 | a delivered request leaves its address and passes the turn on; another leaves both |
| `NngIntact.CallIntact` | kernel/nngcompat.c:125-138 | the flag that no body has been written past its block falls exactly at a call that does, and which calls do is told from the state before |
| `NngIntact.IntactExactly` | kernel/nngcompat.c:224-516 | over any run the flag stands exactly if no call has written past a block; that is sufficient for the heap to hold what was sent |
| `NngIntact.IntactWhileFitting` | kernel/nngcompat.c:265-276 | the flag stands as long as nothing above 64 bytes is sent and nothing is appended that its block does not hold |
| `Messages.RoundTrip` | kernel/nngcompat.c:555-586 | every kernel message comes back from its body, whose bytes are given, with its priority, operation and payload, and the body fits a small block exactly when the payload has at most 58 bytes |
| `Messages.FromBody` | kernel/nngcompat.c:573-586 | a body under five bytes is refused; any other gives a terminated payload of at most 127 bytes |
| `Messages.FromBodyIs` | kernel/nngcompat.c:573-586 | which bytes of a body become the priority, the operation and the payload |
| `TaskTable.Table.constructor` | kernel/sched/task.c:51-75 | the root task alone, with every capability, in domain 0 |
| `TaskTable.Table.AllocateId` | kernel/sched/task.c:44-49 | ids count up and never become 0 |
| `TaskTable.Table.Find` | kernel/sched/task.c:88-94 | a task's slot is its id minus one; nothing for any other id |
| `TaskTable.Table.CreateTask` | kernel/sched/task.c:109-185 | appends the narrowed child of the running task, or one of the two refusals |
| `TaskTable.Table.LineageDepth` | kernel/ipc/ipc.c:36-57 | the minimum of the true depth and 15 |
| `TaskTable.Table.SiblingCount` | kernel/ipc/ipc.c:61-79 | the minimum of the number of siblings and 15 |
| `TaskTable.SiblingsAre` | kernel/ipc/ipc.c:61-79 | the siblings counted are the other tasks with the same parent |
| `Domains.Matrix.constructor` | kernel/security/domain_graph.c:19-31 | the identity, unsealed |
| `Domains.Matrix.EdgeAllowed` | kernel/security/domain_graph.c:33-42 | the bit test is membership in the edge set; domains outside the matrix reach nothing |
| `Domains.Matrix.SetEdge` | kernel/security/domain_graph.c:44-64 | adds exactly one edge, and none out of range or after sealing |
| `Domains.Matrix.Seal` | kernel/security/domain_graph.c:66-71 | seals |
| `Kernel.HasAll` | kernel/ipc/ipc.c:178-185 | accepts exactly when every capability test that the wanted set passes is one the held set passes too |
| `Kernel.Core.constructor` | kernel/ipc/ipc.c:151-165 | the booted system |
| `Kernel.Core.CreateTask` | kernel/sched/task.c:109-185 | the system's step and the TASK_CREATE record |
| `Kernel.Core.Exit` | kernel/syscall/syscall.c:114-134 | the TASK_EXIT record, then the state |
| `Kernel.Core.SetEdge` | kernel/security/domain_graph.c:44-64 | the system's step and the DOMAIN_EDGE record |
| `Kernel.Core.MayCreate` | kernel/ipc/ipc.c:173-198 | the escalation and domain gates of channel creation |
| `Kernel.Core.CreateChannel` | kernel/ipc/ipc.c:167-233 | the system's step and the CHAN_CREATE record, with all refusals |
| `Kernel.Core.CloseChannel` | kernel/ipc/ipc.c:235-252 | the system's step, with all refusals |
| `Kernel.Core.Connect` | kernel/ipc/ipc.c:256-301 | the system's step and the CHAN_CONNECT record, with all refusals |
| `Kernel.Core.MaySendOn` | kernel/ipc/ipc.c:308-325 | the gate of ipc_send: 0 exactly for a channel in use that may send and, for updates, writes and deletions, is privileged |
| `Kernel.Core.EmitRoot` | kernel/sched/task.c:291-296 | the root task's record |
| `KernelLaws.WithinIsInclusion` | kernel/ipc/ipc.c:178-185 | one capability set is within another exactly when every test of the form `caps & mask` that it passes the other passes |
| `KernelLaws.SendGateIff` | include/capabilities.h:28-37 | what ipc_send asks of a channel, with the operation codes and capability bits, and nothing more |
| `KernelLaws.ChildIs` | kernel/sched/task.c:109-185 | the child as asked for in the next slot, and exactly when it is refused |
| `KernelLaws.ChildGets` | kernel/sched/task.c:96-132 | the child holds exactly what it was given and its creator has |
| `KernelLaws.ChannelGranted` | kernel/ipc/ipc.c:167-233 | a channel is granted exactly when the caller holds its capabilities, may be in its domain, and a channel and a socket are free; which refusal otherwise |
| `KernelLaws.ChannelIs` | kernel/ipc/ipc.c:199-233 | the channel granted is the lowest free one over the lowest free socket, as asked for and owned by the caller |
| `KernelLaws.CloseIs` | kernel/ipc/ipc.c:235-252 | which closes are refused, and that a close takes its own channel and socket only |
| `KernelLaws.ConnectionGranted` | kernel/ipc/ipc.c:256-301 | two channels are connected exactly when both are in use, may reach each other and a pipe is free; which refusal otherwise |
| `KernelLaws.EdgeGranted` | kernel/security/domain_graph.c:44-64 | an edge is added exactly when both domains exist and the matrix is unsealed, and it is the one asked for |
| `KernelLaws.StepKeeps` | kernel/ipc/ipc.c:167-301 | every operation keeps lineage, channels and pipes lawful |
| `KernelLaws.RunLawful` | kernel/ipc/ipc.c:167-301 | so does every run from boot |
| `KernelLaws.PipesLawful` | kernel/ipc/ipc.c:254-301 | in every reachable state a channel pipe joins the sockets of two channels in use, with equal domains, an edge, or a source that may cross |
| `KernelLaws.ConnectionStaysLawful` | kernel/ipc/ipc.c:254-301 | over any run, as long as the pipe of a connection is not cut, it joins the sockets of its two channels, both in use and still allowed to reach each other |
| `KernelLaws.CloseCuts` | kernel/ipc/ipc.c:235-252 | closing a channel in use succeeds and leaves no pipe at its socket |
| `KernelLaws.SealedForGood` | kernel/security/domain_graph.c:44-71 | edges are never removed, and from a seal on the matrix never changes |
| `KernelLaws.RootedTree` | kernel/sched/task.c:109-185 | parents precede children, every task descends from slot 0, only the root has depth 0 |
| `KernelLaws.CapsNarrow` | kernel/sched/task.c:96-132 | no task holds a capability that an ancestor lacks |
| `KernelLaws.Confined` | kernel/sched/task.c:123-129 | descendants of a task that cannot cross stay in its domain |
| `KernelLaws.PrivilegedSend` | kernel/ipc/ipc.c:314-325 | an update, write or deletion passes only if the channel's owner and all its ancestors are privileged |
| `Records.PackWords` | services/auditor/exporter.c:332-343 | the shift loop writes four little-endian words |
| `Records.ParseEncode` | scripts/reconstruct_graph.py:145-161 | parsing a packed record gives the record back |
| `Records.EncodeParse` | scripts/reconstruct_graph.py:145-161 | packing a parsed record gives the bytes back |
| `Audit.TaskBytes` | services/auditor/exporter.c:310-437 | at which bytes a task's records have its fields |
| `Audit.ChannelBytes` | services/auditor/exporter.c:167-207 | at which bytes a channel's record has its fields |
| `Audit.ConnectionBytes` | services/auditor/exporter.c:215-258 | at which bytes a connection's record has its fields |
| `Audit.EdgeBytes` | services/auditor/exporter.c:263-296 | at which bytes an edge's record has its fields |
| `Auditor.Exporter.Send` | services/auditor/exporter.c:40-48 | the record's bytes, in order, at the end of the wire |
| `Auditor.Exporter.TaskCreate` | services/auditor/exporter.c:310-357 | the TASK_CREATE record, if enabled |
| `Auditor.Exporter.TaskExit` | services/auditor/exporter.c:368-437 | the TASK_EXIT record, if enabled |
| `Auditor.Exporter.ChanCreate` | services/auditor/exporter.c:167-207 | the CHAN_CREATE record, if enabled |
| `Auditor.Exporter.ChanConnect` | services/auditor/exporter.c:215-258 | the CHAN_CONNECT record, if enabled |
| `Auditor.Exporter.DomainEdge` | services/auditor/exporter.c:263-296 | the DOMAIN_EDGE record, if enabled |
| `Replay.Reconstruct` | scripts/reconstruct_graph.py:226-240 | the fold of all records; a torn stream is refused |
| `Replay.ReplayAppend` | scripts/reconstruct_graph.py:230-240 | one more record on the wire is one more step of the reader |
| `Audit.StepAgrees` | scripts/reconstruct_graph.py:85-128 | the record an operation writes moves the graph along with the kernel |
| `Audit.ReplayAgrees` | scripts/reconstruct_graph.py:85-161 | replaying any run's stream gives exactly the task table, every channel in use, all live connections, and the matrix up to identity; a task seen to exit is terminated |
| `AuditHistory.ExitsShown` | scripts/reconstruct_graph.py:102-106 | in the graph of any stream a task is dead exactly if it has exited |
| `AuditHistory.ConnectsShown` | scripts/reconstruct_graph.py:118-122 | the graph's connections are exactly those that have been made |
| `AuditHistory.EdgesShown` | scripts/reconstruct_graph.py:124-128 | the graph's edges are exactly those that have been added |
| `AuditHistory.ChannelsShown` | scripts/reconstruct_graph.py:108-116 | the graph's channels are exactly those that have been created |
| `AuditHistory.ChannelShownAs` | scripts/reconstruct_graph.py:108-116 | and each is shown with the owner, capabilities and domain of its latest creation |
| `Telemetry.IpcRing.Push` | kernel/ring_buffer.c:20-29 | appends, or drops and counts exactly when 255 messages wait |
| `Telemetry.IpcRing.Pop` | kernel/ring_buffer.c:31-37 | takes the oldest message, if any |
| `Telemetry.TxnLog.Append` | kernel/fs/storage.c:29-52 | keeps the newest 256 entries across the wrap of its 32-bit counters, and counts the drop |
| `Telemetry.TxnLog.EntryAt` | kernel/fs/storage.c:49-50 | entry i of the live log |
| `Telemetry.Exporter.Drain` | services/auditor/exporter.c:569-574 | up to 32 of the oldest messages reach the wire in order |
| `Telemetry.Exporter.Tick` | services/auditor/exporter.c:560-582 | the drop count, then up to 32 messages, then a heartbeat every 100 ticks |
| `Telemetry.TickMoves` | services/auditor/exporter.c:560-582 | a tick moves messages and drops and loses none |
| `Telemetry.TickTakes` | services/auditor/exporter.c:560-582 | a tick sends the oldest messages, 32 or all there are |
| `Telemetry.TickOrder` | services/auditor/exporter.c:560-582 | the drop count goes out first, then the messages, then the heartbeat |
| `Telemetry.HeartbeatEveryHundred` | services/auditor/exporter.c:560-582 | over any run there is one heartbeat for every hundred ticks |
| `Telemetry.StreamConserves` | services/auditor/exporter.c:560-582 | over any run sent plus waiting messages are the accepted ones in order, and counted plus pending drops are the drops of both rings modulo 2^32 |
| `Telemetry.LogKeepsNewest` | kernel/fs/storage.c:29-52 | over any run the log holds exactly the last 256 entries appended |
| `RoundRobin.Scheduler.Yield` | services/scheduler/round_robin.c:39-44 | every RUNNING slot becomes READY and nothing else changes |
| `RoundRobin.Scheduler.Schedule` | services/scheduler/round_robin.c:31-58 | runs the first runnable slot after the cursor, alone; fails exactly when none is READY or RUNNING |
| `RoundRobin.PickUnique` | services/scheduler/round_robin.c:46-55 | the first runnable slot after the cursor is unique |
| `RoundRobin.PickIs` | services/scheduler/round_robin.c:46-55 | the pick is the READY or RUNNING slot with none such between the cursor and it, around the end of the table |
| `RoundRobin.OneRunning` | services/scheduler/round_robin.c:39-55 | after a success exactly one slot is RUNNING |
| `RoundRobin.CloserOrPicked` | services/scheduler/round_robin.c:46-55 | each schedule picks a runnable slot or comes strictly closer to it |
| `RoundRobin.BoundedWaiting` | services/scheduler/round_robin.c:31-58 | a slot that stays runnable is chosen within n schedules, whatever the others do |
| `Frames.FrameAllocator.constructor` | kernel/mm/frames.c:51-65 | no frame is held |
| `Frames.FrameAllocator.AllocFrame` | kernel/mm/frames.c:67-84 | the lowest free frame, never one still held; 0 exactly when all 1024 are |
| `Frames.FrameAllocator.FreeFrame` | kernel/mm/frames.c:86-118 | returns the frame an address names; bad addresses and double frees change nothing |
| `Frames.FrameAllocator.CountFree` | kernel/mm/frames.c:120-122 | the number of frames not held |

## Left out

- Nng.Sockets.Unsubscribe: asks for a topic of at most 32 bytes, because the code has no length check and compares past the stored topic otherwise.
- Nng.Sockets.MsgFree: asks that the caller does not free a message a queue owns; the C code leaves that to its callers.
- Nng.Sockets.MsgAppend: asks the same, and promises no more than a well-formed state once a body has run over its block, because the header it reads may then be overwritten.
- Nng.Sockets.Send: asks for a message of the caller's own or null; the C code reads through any other pointer. Once a copy of a fan-out has run over its block it promises no more than a well-formed state, because the header it goes on reading may then be overwritten.
- Nng.Sockets.RouteBody: the same for the rest of a fan-out.
- Nng.Sockets.DeliverCopy: the same once a body has run over its block.
- NngPool.Pool.Append: takes the checksum routine as a parameter and does not model its access validation; `Crc` models the routine itself.
- WorkflowEngine.Engine.Run: asks that a RUNNING slot has run no step yet; the C code accepts a slot abandoned halfway, runs it from step 0 and counts `done_count` past `step_count`.
- WorkflowEngine.Engine.RunForward: asks the same.
- Telemetry.TxnLog.Append: does not stamp the running task's id into the entry.
- Checkpoints.Storage.CreateCheckpoint: does not model the transaction-log entry that each store operation writes.
- Checkpoints.Storage.RestoreCheckpoint: the same.
- Checkpoints.Storage.RemoveCheckpoint: the same.
- Checkpoints.Storage.GenerateId: does not model the halt at the 2^64th id.
- Null pointer arguments of the C functions, which the types exclude, and the log messages.
- The denial records' own fields; `TaskTable.Table.LineageDepth` and `TaskTable.Table.SiblingCount` cover their lineage nibbles.
- The `--at` option and the DOT output of the graph reader.
- The rest of `ipc_send` and `ipc_recv` behind their gates: the received checksum is never carried, so no identity between the two holds.
- `nng_shutdown`, which leaves queue counters unreset: runs start at `nng_init`.
- `task_yield` and context switching, `rr_set_state` from arbitrary bytes, and scheduler hot swap.
- The cryptographic placeholders: the signature check is an arbitrary digest compared with the given hash, false for an empty image.
- The access validation inside the memory and string helpers, which is taken to pass.
- `log_path`, `copy_file`, `install_update` beyond its result, and the simulated test run, which always passes.
- Boot, assembly, MMU, interrupt, timer, console and driver code.
