# Verification model of Ria

Ria is a 4-wide out-of-order RV32 core in SystemVerilog with a C++ memory and host simulator and a few C programs. This
project models its hard parts in Dafny and proves what they are for. Every clocked module is a class with one method per
clock; its meaning is a function on values, and the theorems about whole runs are lemmas about that function.

- Renaming: `FreeList.dfy`, `MappingTable.dfy` (the hardware loops), `Renaming.dfy`, `RenamingRuns.dfy` (invariant over
  all runs, partition of the physical registers, precise recovery), `FrontEnd.dfy` (the same for the clocked composition
  of pipeline registers, renaming, reorder buffer and the registers between retirement and the tables).
- Out-of-order execution: `Sequential.dfy` is the in-order machine with an arbitrary ALU, `Instructions.dfy` what its
  instructions do in the terms of the ISA, `OutOfOrder.dfy` the core as interleaved events, `OutOfOrderProof.dfy` the
  simulation proof, including squash, the store buffer and groups that rename drops, `Guards.dfy` that its guards are
  the decisions of the hardware, `Progress.dfy` that the core never comes to rest, `DroppedGroup.dfy` a run with a
  dropped group.
- Reorder buffer: `Rob.dfy` (one clock on the circular buffer), `RobRuns.dfy` (refinement of a queue over all runs),
  `Redirect.dfy` (the predictor redirects exactly when the buffer recovers).
- Back end: `Selectors.dfy`, `Dispatch.dfy`, `IssueQueueInt.dfy`, `IssueQueueMem.dfy`, `RegisterFile.dfy`, `Pipe3.dfy`.
- Elastic pipeline: `Pipeline.dfy` (no loss, duplication or reordering), `PipelineSources.dfy` (rename and the reorder
  buffer deliver what it expects), `IssueStage.dfy` (the pipeline registers with the two queue objects behind them).
- Memory: `Memory.dfy` (flat and bucketed memory), `StoreBuffer.dfy`, `Memif.dfy`, `Mailbox.dfy`.
- Records and arithmetic: `MicroOps.dfy`, `Arithmetic.dfy`, `Int32.dfy`, `Divider.dfy`, `Sobel.dfy`, `Ascii.dfy`.

Where the code does not deliver what one would expect, the model keeps the code, a lemma names an input that shows it, and
another lemma gives the exact condition under which the property holds:

- The reorder buffer drops uops that do not fit, although it lowers `allocatable` (`RobRuns.FullBufferLosesUops`,
  `RobRuns.GroupEntersExactlyIfItFits`); rename drops a group for which registers are missing
  (`PipelineSources.ExhaustedRenameLosesGroup`). `PipelineSources.LosslessIff` is the exact condition.
- After a dropped group the core goes on with the instructions behind it (`DroppedGroups.DroppedGroupIsSkipped`); it is
  the in-order machine up to that group, and afterwards the in-order machine on the instructions that were not dropped
  (`OutOfOrderProof.OutOfOrderRefinesInOrder`).
- At most half of the entries, rounded up, retire in one clock, because the guard compares the lane with a size that
  shrinks (`RobRuns.RetiresExactly`).
- A store to the print address is forwarded to loads and disappears when it commits (`StoreBuffers.PrintStoreIsLost`,
  `StoreBuffers.CommitFrontExact`).
- `times` does not end for the multiplier -2^31 (`Sobels.TimesEndsExactly`), and `int_sqrt` gives a root exactly from 0
  to below 46340^2 (`Sobels.IntSqrt`).
- A store that arrives at the load/store pipe behind a load without data ends that load
  (`Pipe3s.StoreBehindWaitingLoad`); with data that come at once nothing is blocked (`Pipe3s.NothingBlocked`).
- An exit code is reported exactly if it has 30 bits (`Mailboxes.ExitIsReported`); of one with more than 31 bits the host
  can meet the high half alone and take it for a command (`Mailboxes.LongExitRunsACommand`).
- Indices into the reorder buffer are taken modulo 64, and slot 16 of the memory queue reads as an empty slot, as the
  design intends; the expressions in the code run past the arrays there.

## Model

| member | source | states |
|---|---|---|
| FreeLists.FreeList.Step | src/frontend/free_list.sv:44-123 | one clock frees and retires first, then grants all requests or none; lanes get the lowest free registers one after the other; recovery loads the retired pair |
| FreeLists.PickIsGrant | src/frontend/free_list.sv:78-93 | the one-pass search hands each lane the register it would get if lanes were served one at a time |
| FreeLists.AllocateAllNum | src/frontend/free_list.sv:87-102 | granting a group lowers the free count by its requests and leaves the retired bitmap and count alone |
| MappingTables.MappingTable.Step | src/frontend/mapping_table.sv:65-131 | the loops over retire ports and lanes equal the ports and lanes taken one at a time, older lanes seen by younger ones |
| MappingTables.GrantedAt | src/frontend/mapping_table.sv:94-103 | lane i is granted the lowest register still free after the lanes before it |
| MappingTables.RenamedFields | src/frontend/mapping_table.sv:89-105 | what renaming writes into a uop: sources from the map, the lowest register that is not busy for a destination with the register it replaces, nothing without one; the rest stays |
| MappingTables.Rat.Step | src/frontend/rat.sv:60-108 | a whole clock of renaming is its uops retired and renamed one at a time; the output is empty on recovery or when registers are missing, and `allocatable` says exactly whether they suffice |
| Renaming.InitialRat | src/frontend/mapping_table.sv:109-115 | the reset state satisfies the renaming invariant |
| Renaming.RenamePreserves | src/frontend/mapping_table.sv:89-105 | renaming a uop that finds a register keeps the invariant (maps name the last writers, owned registers are distinct, bitmaps and counts agree) |
| Renaming.RetirePreserves | src/frontend/free_list.sv:57-69 | retiring the oldest uop keeps the invariant: the register it frees is the one its predecessor wrote |
| Renaming.RecoverPreserves | src/frontend/mapping_table.sv:116-122 | recovery keeps the invariant with every younger uop removed |
| RenamingRuns.RunPreserves | src/frontend/mapping_table.sv:81-131 | the invariant holds after every run of the renaming hardware, with up to six retirements, four renames and recoveries in one clock; a retiring uop agrees with its renamed form in the register fields only |
| RenamingRuns.PhysicalPartition | src/frontend/free_list.sv:44-123 | in every reachable state the busy registers are exactly retired mappings and in-flight destinations, pairwise distinct, and the free count is 63 less both |
| RenamingRuns.MapsAreInFlightRenames | src/frontend/mapping_table.sv:81-105 | the speculative map and valid bits are always the in-flight renames folded in program order over the retired ones |
| RenamingRuns.PreciseRecovery | src/frontend/mapping_table.sv:116-122 | recovery in the same clock as any retirements restores exactly the map of the retired uops and frees every squashed destination |
| FrontEnds.FrontKeeps | src/core.sv:51-66 | one clock of pipeline registers, renaming and reorder buffer together keeps the joint invariant: the renamed uops not yet retired by the tables are, in order, the registered retirements, the buffer and the registers before it |
| FrontEnds.Signals | src/core.sv:111-149 | `cmAllocatable` low means that the buffer is full after the clock, high that a group enters whole; `rrAllocatable` high means that every uop in rename is renamed, low that one needs a register and none is |
| FrontEnds.FrontObeys | src/core.sv:151-242 | over all runs of that machine, with any fetch, completions and full signals and a group that fits the buffer, the uops that the buffer completes and retires are, one clock later, exactly those that renaming expects |
| FrontEnds.FrontPartition | src/frontend/free_list.sv:44-123 | the partition of the physical registers in every reachable state of that machine |
| FrontEnds.FrontRecovery | src/core.sv:51-66 | whenever the recovery register is set, the next clock restores exactly the map of the retired uops |
| RegisterFiles.PrfIntData.Read | src/backend/prf_int.sv:26-47 | a read port returns what the register holds after the writes of this clock; register 0 reads as zero |
| RegisterFiles.PrfIntData.Step | src/backend/prf_int.sv:49-60 | all banks stay equal and stand for one array with the writes applied in port order |
| RegisterFiles.WriteAllAt | src/backend/prf_int.sv:49-60 | with distinct targets every written register holds its data and every other one is unchanged |
| RegisterFiles.ScoreboardInt.Inquire | src/backend/scoreboard_int.sv:72-98 | a source is busy if its bit is set, it is not register 0, and it is not written back in this clock |
| RegisterFiles.ScoreboardInt.Step | src/backend/scoreboard_int.sv:37-105 | bit by bit: dispatched destinations become busy, written-back ones free, a clear empties the board |
| RegisterFiles.MarkedAt | src/backend/scoreboard_int.sv:37-52 | the request vector holds exactly the strobed indices |
| Instructions.BranchesCompareIntegers | src/backend/function_unit.sv:75-104 | on registers that hold x and y in two's complement BLT, BGE, BEQ and BNE are taken if and only if x < y, x >= y, x = y, x != y as integers |
| Instructions.BranchesCompareWords | src/backend/function_unit.sv:75-104 | BLTU and BGEU compare the words; JAL and JALR are always taken, other instructions never |
| Instructions.BranchesGo | src/backend/function_unit.sv:92-99 | the target is rs1 + imm for JALR, pc + imm for a taken branch, pc + 4 otherwise, modulo 2^32 |
| Instructions.OperandsAre | src/backend/prf_int.sv:105-130 | an operand is the register (0 for register 0), the immediate, pc, pc + 4 or 0 |
| Instructions.OneStep | src/backend/function_unit.sv:92-104 | one instruction changes the program counter, at most its destination, and, unless it is a store, no memory |
| Instructions.OneStore | src/backend/execution_unit.sv:180-203 | a store of n bytes at rs1 + imm writes digit k of rs2 in base 256 to address + k and nothing else; at the print address it prints the low byte, at the halt address it writes nothing |
| Instructions.StoredDigit | sim/store_buffer.cc:53-83 | byte k of a store is data / 256^k mod 256 |
| Instructions.StoreWrites | sim/store_buffer.cc:25-34 | a committed store of 1, 2, 4 or 8 bytes changes exactly these bytes, across the end of the address space |
| Instructions.LoadAfterStore | sim/store_buffer.cc:49-91 | for every word, address and size of 1, 2 or 4 bytes a load after a store returns the low bytes, zero- or sign-extended, while the store is pending and once it is committed |
| Instructions.LoadInstAfterStoreInst | src/backend/execution_unit.sv:156-177 | the same for a store instruction followed by a load instruction on the in-order machine |
| OutOfOrderProof.OutOfOrderRefinesInOrder | src/core.sv:198-570 | for every program, ALU, memory, prediction and interleaving of events, groups dropped by rename included: registers through the retired map, committed memory and the characters printed are those of the in-order machine after the retired instructions; these are the first instructions of the program, and the oldest uop is the next one, as long as retirement has not passed a dropped group |
| OutOfOrderProof.OperandsAreInOrder | src/backend/prf_int.sv:36-47 | operands read from physical registers are those the program-order producers wrote |
| OutOfOrderProof.LoadsSeeOlderStores | sim/store_buffer.cc:49-91 | when the memory pipe serves a uop the store buffer holds exactly the older stores of its path, so a load byte is that of the youngest older store or of committed memory, and, unless that store is one to a device, that of in-order memory |
| OutOfOrderProof.RunKeeps | src/core.sv:198-570 | the simulation invariant holds after every sequence of events, dropped groups included |
| OutOfOrderProof.StepKeeps | src/core.sv:198-570 | every event, the loss of a group in rename included, keeps the simulation invariant |
| OutOfOrderProof.RenameKeeps | src/core.sv:187-196 | renaming the uop that fetch follows with keeps every clause of the invariant |
| OutOfOrderProof.DropKeeps | src/frontend/rat.sv:93-97 | a group that finds no registers leaves a hole in the path and keeps every clause of the invariant |
| DroppedGroups.DroppedGroupIsSkipped | src/core.sv:159-165 | a run in which the 64th instruction finds no register: after 63 retirements the core goes on with the 65th, the in-order machine with the 64th |
| OutOfOrderProof.DispatchKeeps | src/core.sv:288-293 | in-order dispatch, which marks the destination busy and enters the memory queue, keeps it |
| OutOfOrderProof.IssueMemKeeps | src/backend/issue_queue_mem.sv:82-107 | issuing a permitted memory uop keeps stores in program order relative to all others |
| OutOfOrderProof.ExecuteKeeps | src/backend/prf_int.sv:49-60 | write-back of an executed uop keeps every owned register at its in-order value |
| OutOfOrderProof.AccessKeeps | src/backend/execution_unit.sv:180-203 | a memory access in pipe order keeps the store buffer equal to the done stores in program order |
| OutOfOrderProof.RetireKeeps | src/frontend/rob.sv:59-92 | retirement moves the in-order state forward by one instruction and commits the front store, to memory or to the console |
| OutOfOrderProof.SquashKeeps | src/core.sv:51-66 | retirement of a mispredicted branch with squash of everything younger keeps it |
| OutOfOrderProof.SourceValue | src/backend/scoreboard_int.sv:72-98 | a source that is not busy holds the value the last older writer produced |
| Guards.IssueMemIsSelector | src/backend/issue_queue_mem.sv:82-107 | the event of a memory issue is enabled exactly where the selector of the queue permits it and no source is busy |
| Guards.IssueIntIsAwake | src/backend/issue_queue_int.sv:66-72 | the event of an integer issue is enabled exactly when the queue finds the uop waiting for nothing |
| Guards.RetireIsScan | src/frontend/rob.sv:59-88 | the event of retirement is enabled, and squashes, exactly when the reorder buffer would retire the oldest uop, and recover |
| Progress.Drains | src/core.sv:198-570 | from every reachable state the stages behind rename can go on, without any fetch, until everything renamed has retired or been squashed, unless the program halts the simulation or a load asks for a byte on its way to a device |
| Progress.OldestMoves | src/backend/issue_queue_mem.sv:82-107 | while a renamed uop has not retired, the oldest one or the front of the memory pipe has an enabled event |
| Progress.WorkFalls | src/core.sv:198-570 | every event behind rename brings the end nearer |
| Progress.BusyStep | src/backend/scoreboard_int.sv:37-70 | every event keeps that a register is busy only while a dispatched uop is going to write it |
| Robs.Rob.Step | src/frontend/rob.sv:35-125 | one clock of the circular buffer has exactly the effect of `Clock` on the queue of entries; `allocatable` is low exactly when the last lane met a full buffer |
| Robs.CompleteIsQueue | src/frontend/rob.sv:51-58 | completions update exactly the queue positions whose slots they name, the last one winning |
| Robs.ScanBounds | src/frontend/rob.sv:59-63 | at most six and at most half of the entries, rounded up, retire; a completed oldest entry always does |
| Robs.ScanStops | src/frontend/rob.sv:69-88 | only complete entries retire, and only the last of them may be mispredicted, exactly if the buffer recovers |
| Robs.AcceptCount | src/frontend/rob.sv:93-108 | as many valid lanes enter as there is room for |
| Robs.AcceptKeeps | src/frontend/rob.sv:97-104 | the lanes that enter are the first valid ones, changed only in the index of their slot |
| Robs.PlacedAreAccepted | src/frontend/rob.sv:93-108 | the valid output lanes are, in order, exactly the uops that entered |
| RobRuns.RunIsQueue | src/frontend/rob.sv:51-126 | over all runs, with wrap-around and completion in any order: entries sit at the slots their indices name, the retired stream of an epoch is a prefix of the accepted one, each retired uop was completed after acceptance and carries the branch outcome of the last completion that named it, and each epoch ends with its only mispredicted branch |
| RobRuns.LatestBranch | src/frontend/rob.sv:51-58 | an entry carries the branch outcome of the last completion of the clock that names it |
| RobRuns.StepPreserves | src/frontend/rob.sv:51-126 | one clock keeps the refinement for every completion and group that the core can present |
| RobRuns.RetiresExactly | src/frontend/rob.sv:59-92 | entry k retires if and only if it is among six lanes, 2k is below the size, all entries up to it are complete and none before it is mispredicted |
| RobRuns.GroupEntersExactlyIfItFits | src/frontend/rob.sv:93-109 | a group enters whole, in order, if and only if it fits in what retirement leaves; a recovery takes nothing |
| RobRuns.FullBufferLosesUops | src/frontend/rob.sv:94-107 | in the buffer that 63 single uops have filled, the second uop of a group is lost in a clock in which `allocatable` is low |
| Redirects.TestsDisagreeExactly | src/frontend/branch_pred.sv:126-135 | the two misprediction tests differ exactly on branches neither taken nor predicted taken whose addresses differ |
| Redirects.GenuineTestsAgree | src/frontend/inst_decode.sv:24-26 | on branches with decode's default prediction and the branch unit's target the tests agree |
| Redirects.CheckRetired | src/frontend/branch_pred.sv:92-137 | the retire loop reports the first lane that fails its test and redirects to that lane's target |
| Redirects.RedirectAgrees | src/frontend/branch_pred.sv:92-137 | for every clock of the reorder buffer the predictor reports a misprediction if and only if the buffer recovers, and redirects to the target of the recovering uop |
| Redirects.RedirectAgreesInRuns | src/frontend/rob.sv:51-92 | the same over all runs, for groups from decode and completions from the branch unit: what retires carries what these gave it |
| Redirects.SourcedGrows | src/frontend/rob.sv:51-108 | one clock keeps that uops of the epoch come from decode and reported outcomes from the branch unit |
| Selectors.LaneTakesRank | src/backend/issue_queue_int.sv:64-144 | output lane i takes a request if and only if exactly i requests lie below it |
| Selectors.LaneValid | src/backend/issue_queue_int.sv:102-144 | lane i is valid if and only if there are more than i requests |
| Selectors.LaneSees | src/backend/dispatch.sv:16-37 | lane i sees exactly the requests with at least i requests below them |
| Selectors.LaneForwards | src/backend/dispatch.sv:84-91 | lane i forwards the i-th element whose request bit is set |
| Dispatches.PortIsStableSplit | src/backend/dispatch.sv:57-91 | each port delivers exactly the uops of its queue, in program order, in its first lanes |
| Dispatches.PortsPartition | src/backend/dispatch.sv:57-64 | every valid uop goes to exactly one port, unless decode gave it no queue |
| IssueQueueInts.IssueQueueInt.Step | src/backend/issue_queue_int.sv:190-319 | one clock: the free slot with i free slots below takes lane i, the two lowest ready ALU or branch slots and the lowest ready multiply-divide slot leave, the counter stays the number of free slots |
| IssueQueueInts.OnlyAwakeIssue | src/backend/issue_queue_int.sv:66-72 | only uops issue both of whose sources are no register, not busy or written back in this clock, at most three issue, and while a uop of a class is such one of that class issues |
| IssueQueueInts.ClockConserves | src/backend/issue_queue_int.sv:261-319 | in one clock what waits plus what issues is, as a multiset, what waited plus what was stored |
| IssueQueueInts.StoredExactly | src/backend/issue_queue_int.sv:261-272 | a group is stored whole if and only if each valid lane has that many free slots |
| IssueQueueInts.FreeCountMoves | src/backend/issue_queue_int.sv:190-200 | the number of free slots falls by the stored and rises by the issued uops |
| Selectors.CountBits | src/frontend/free_list.sv:70-74 | the counting loop returns the number of set bits |
| IssueQueueInts.LeaveCount | src/backend/issue_queue_int.sv:294-301 | the number of cleared slots is the number of issued uops |
| IssueQueueInts.QueueConserves | src/backend/issue_queue_int.sv:152-321 | in every run, slots and issued uops together are exactly the uops dispatched since the last clear |
| IssueQueueInts.SelectOutputs | src/backend/issue_queue_int.sv:303-319 | the three output lanes carry the first two ready ALU or branch uops and the first ready multiply-divide uop, and exactly their slots are cleared |
| IssueQueueInts.AssignSlots | src/backend/issue_queue_int.sv:261-272 | the double loop over lanes and slots gives each lane the free slot of its rank |
| IssueQueueMems.SelectIsOldestPermitted | src/backend/issue_queue_mem.sv:82-141 | the selector picks the oldest ready uop that breaks no order with a store, and none only if there is none |
| IssueQueueMems.IssueQueueMem.Step | src/backend/issue_queue_mem.sv:45-62 | the valid slots are a list: one clock removes at most the selected entry, keeps the rest in order and appends the group; what issues had no busy source and was not new, and such a slot that may go first is not passed over; exactly the slots loaded in a clock are new after it; tail plus free count stays 16 |
| IssueQueueMems.IssueOrder | src/backend/issue_queue_mem.sv:82-107 | over every run an issued memory uop was preceded by all older ones of which it or the older one is a store |
| IssueQueueMems.IssueQueueMem.SelectsChosen | src/backend/issue_queue_mem.sv:82-141 | slots that show the waiting uops select the entry that the list of waiting uops chooses |
| IssueQueueMems.ShownClock | src/backend/issue_queue_mem.sv:181-289 | a step of the list is, on the uops it shows, the removal of the chosen entry and the arrival of the group |
| IssueQueueMems.IssueQueueMem.IssuedInOrder | src/backend/issue_queue_mem.sv:82-107 | the order law for the queue object itself: of the uops issued since the last clear, those that must keep their order with a store have kept it |
| Pipe3s.Pipe3.Step | src/backend/execution_unit.sv:144-203 | one clock: a memory uop is taken when the pipe is idle or its uop completes, with address in1 + imm modulo 2^32, data in2, the write flag of a store and its size; otherwise the held one stays with its request |
| Pipe3s.RequestIsInOrder | src/backend/execution_unit.sv:180-203 | with the operands of an in-order state the request is the access of the in-order machine |
| Pipe3s.RequestIsAccess | src/backend/execution_unit.sv:180-203 | the request is the access of the memory event of the whole core |
| Pipe3s.Pipe3.Out | src/backend/execution_unit.sv:156-177 | a held load with its data gives the load result of the in-order machine, anything else gives zero |
| Pipe3s.CompletedInOrder | src/backend/execution_unit.sv:180-203 | in every run the requests completed or held are, in order, exactly those that arrived and did not find another one waiting for its data |
| Pipe3s.NothingBlocked | sim/sim_main2.cc:92-98 | with data valid in every clock nothing is lost and every request takes one clock |
| Pipe3s.StoreBehindWaitingLoad | src/backend/execution_unit.sv:139-154 | without data, a store arriving behind a load makes the load look complete and is itself not taken |
| Pipelines.StepKeepsElastic | src/core.sv:151-180 | for every pattern of full signals each second register is in use exactly while its stall bit is set, and then nothing arrives behind it |
| Pipelines.DecodeWaits | src/core.sv:149-180 | the group in decode moves on exactly if no queue is full, the reorder buffer has room and rename finds registers; otherwise nothing is fetched and it waits behind what already waits |
| Pipelines.RenamedWaits | src/core.sv:215-242 | a renamed group waits for the queues and the reorder buffer |
| Pipelines.DispatchedWaits | src/core.sv:324-356 | dispatched groups wait for the queues |
| Pipelines.ClockConserves | src/core.sv:206-242 | delivered plus in-flight instructions of a queue are, in order, what was in flight, with the groups rename and the reorder buffer passed on, and what enters |
| Pipelines.LosslessExactly | src/core.sv:151-180 | for any rename and reorder buffer that pass groups on, a clock loses nothing of a queue if and only if the group in rename passes and the group in dispatch enters whole |
| Pipelines.DeliveredInOrder | src/core.sv:324-356 | in every run, for every pattern of `iq_full`, each queue receives exactly what entered decode, in program order |
| PipelineSources.RenamePassesOn | src/frontend/rat.sv:93-108 | rename passes a group on with its instructions in their lanes when registers suffice, and nothing otherwise |
| PipelineSources.RobPassesOn | src/frontend/rob.sv:93-109 | the reorder buffer passes on a prefix of the valid uops, all of them when they fit |
| PipelineSources.SourcesDeliver | src/core.sv:151-242 | with rename and the reorder buffer wired in, the pipeline's expectations always hold, and a clock is lossless when both have room |
| PipelineSources.LosslessIff | src/core.sv:151-180 | with rename and the reorder buffer wired in, a clock loses nothing of either queue if and only if free registers cover the group in rename or it holds no uop for a queue, and each uop for a queue in dispatch finds an entry behind the older ones |
| PipelineSources.LosslessOnGuards | src/frontend/rob.sv:93-109 | the same condition for one queue |
| PipelineSources.RegistersRunOut | src/frontend/free_list.sv:76-93 | n uops that each take a register leave 63 - n free |
| PipelineSources.ExhaustedRenameLosesGroup | src/frontend/rat.sv:93-97 | after 63 renamings from reset a group that needs a register disappears, whatever the other signals are |
| IssueStages.IssueStage.Step | src/core.sv:206-242 | with the two queues attached every clock meets their demands: load signal up when uops arrive, a free slot for each; the registers advance as the conservation law assumes |
| IssueStages.IssueStage.StepRegisters | src/core.sv:324-356 | the clock edge of the three boundaries equals the pipeline function and keeps it elastic |
| IssueStages.IssueStage.GroupsFit | src/core.sv:215-221 | while the registered full signal is down both queues have room for a whole group |
| Memories.BucketMemory.Read | sim/sim_memory.cc:55-90 | reading walks bucket by bucket and returns the bytes of flat memory; buckets created on the way are invisible |
| Memories.BucketMemory.Write | sim/sim_memory.cc:55-95 | writing changes flat memory exactly in the block, across buckets and the end of the address space |
| Memories.ReadAfterWrite | sim/sim_memory.cc:87-95 | a block reads back as written |
| StoreBuffers.StoreBuffer.AddStoreRequest | sim/store_buffer.cc:6-9 | adding a store applies it to the view |
| StoreBuffers.StoreBuffer.CommitStoreRequest | sim/store_buffer.cc:11-40 | the commit loop on memory, buffer, code and printed characters; committing k ordinary stores moves the k oldest to memory and leaves the view alone; too many, or the halt address, flush and stop |
| StoreBuffers.StoreBuffer.FlushStoreBuffer | sim/store_buffer.cc:42-47 | a flush resets the view to memory |
| StoreBuffers.StoreBuffer.LoadData | sim/store_buffer.cc:49-91 | the eight bytes returned are those of the view, for every partial overlap of 1-, 2-, 4- and 8-byte stores |
| StoreBuffers.StoreBuffer.FallingEdge | sim/sim_main2.cc:84-97 | one falling edge of the driver commits, flushes on recovery, then takes a store or serves a load from the view |
| StoreBuffers.ViewByte | sim/store_buffer.cc:56-89 | every byte of the view is that of the youngest store covering it, or of memory |
| StoreBuffers.CommitKeepsView | sim/store_buffer.cc:21-38 | committing any number of ordinary stores moves them to memory in order, prints nothing and leaves the view unchanged |
| StoreBuffers.CommitFrontExact | sim/store_buffer.cc:25-34 | committing the oldest store keeps the view if and only if it is not a print, or younger stores cover all it changed |
| StoreBuffers.OrdinaryByte | sim/store_buffer.cc:25-34 | a byte of the view that no pending store to a device provides is the one memory holds after all commits |
| StoreBuffers.PrintStoreIsLost | sim/store_buffer.cc:29-31 | a printed character is seen by a load before its commit and gone afterwards |
| StoreBuffers.OverlayIsStore | sim/store_buffer.cc:60-89 | laying a store over eight loaded bytes equals loading after applying the store |
| StoreBuffers.OffsetCovers | sim/store_buffer.cc:60-60 | the signed 32-bit offset tells which load bytes a store covers, across the end of the address space |
| Memifs.ChunkedMemory.Read | sim/memif.cc:11-45 | any block is read as from flat memory through aligned chunks of bounded length |
| Memifs.ChunkedMemory.Write | sim/memif.cc:48-93 | any block is written as to flat memory: unaligned ends by read-modify-write, an all-zero middle by clearing, chunk demands always met |
| Memifs.ChunkedMemory.ClearChunk | sim/htif.cc:213-220 | clearing writes zeros, chunk by chunk |
| Memifs.ChunkedMemory.RoundTrip | sim/memif.cc:11-93 | a written block reads back the same and no byte outside it changes |
| Memifs.MaskIsOffset | sim/memif.cc:15-31 | for a power of two the mask expressions of the code are the distance to the boundary below and the boundary itself |
| Memifs.ChunkFits | sim/memif.cc:43-44 | every chunk of the middle loop is aligned, not empty and within the limit |
| Memifs.JoinWrites | sim/memif.cc:48-93 | writing head, then tail, then middle is one write of the block |
| Mailboxes.Mailbox.ProcessHtio | sim/htif.cc:222-262 | one host step takes a request, runs it and sends a response if the previous one was read |
| Mailboxes.Mailbox.StoreTohost | spike-software/lib/ExecLib.c:14-14 | one half of the store that starts a call |
| Mailboxes.Mailbox.PollFromhost | spike-software/lib/ExecLib.c:15-15 | the busy wait ends exactly when a response is there |
| Mailboxes.Mailbox.ClearFromhost | spike-software/lib/ExecLib.c:16-16 | one half of the store that acknowledges the response |
| Mailboxes.EveryInterleaving | spike-software/lib/ExecLib.c:7-17 | in every interleaving at most one request or response is outstanding, each command runs once, in order, as it was sent, a call returns only with the result of its command, and the simulation stops only on an exit of the program |
| Mailboxes.StepKeepsProtocol | sim/htif.cc:240-256 | every step of either side keeps the protocol |
| Mailboxes.HostEndsTheWait | sim/syscall.cc:197-211 | one host step answers a waiting target, and the next poll ends the wait |
| Mailboxes.HostStep | sim/syscall.cc:470-482 | what a host step changes: the request goes, the result enters the command block, the response is 1 |
| Mailboxes.ReplyIsWhole | sim/htif.cc:250-254 | a queued response goes out whole once the previous one has been read |
| Mailboxes.ResponseNamesRequest | sim/device.h:20-23 | the response carries device and command of the request over its value |
| Mailboxes.OneCall | spike-software/lib/ExecLib.c:13-17 | a call can be made to its end, with the halves of its stores in either order, and returns the result of its command |
| Mailboxes.Mailbox.StoreExit | spike-software/lib/ExecLib.c:7-11 | one half of the store that a program repeats to exit |
| Mailboxes.ExitIsReported | sim/syscall.cc:197-206 | an exit stops the simulation at the next host step, which touches nothing else; the code reported is that of the program if and only if it is below 2^30 |
| Mailboxes.LongExitRunsACommand | sim/syscall.cc:208-211 | of the code 2^31 the host can meet the high half alone and runs a command |
| Dividers.Divider.Step | src/external/divider.sv:37-70 | one clock of the divider; `ok` is the negation of `active` |
| Dividers.DividesExactly | src/external/divider.sv:28-70 | ready exactly 32 clocks after start, with quotient and remainder; division by zero gives 2^32 - 1 and the dividend, as DIVU and REMU do (section 7.2 of the RISC-V Unprivileged ISA 20191213) |
| Dividers.AfterClocks | src/external/divider.sv:53-68 | after k clocks the registers hold the quotient and remainder of the k leading bits and the remaining bits; the remainder is below 2^k, so the dropped bit is zero |
| Dividers.RunsFor32 | src/external/divider.sv:64-67 | the divider is active for exactly 32 clocks |
| Dividers.Divider.Divide | src/external/divider.sv:45-70 | a start followed by 32 clocks divides |
| Sobels.Times | software/sobel/sobel.c:24-41 | for every multiplier but -2^31 the result is the product modulo 2^32, as a signed number |
| Sobels.TimesEndsExactly | software/sobel/sobel.c:29-35 | the loop ends if and only if the multiplier is not -2^31 |
| Sobels.IntSqrt | software/sobel/sobel.c:44-65 | for every argument: the result is the integer square root if and only if 0 <= n < 46340^2; above it is 46341, for negative n it is 0 |
| Sobels.ScanEnds | software/sobel/sobel.c:49-53 | the search for the first digit ends with no bits above the shift, although an amount of 32 is taken as 0 |
| Sobels.Conv2D | software/sobel/sobel.c:67-100 | every output pixel is the zero-padded 3x3 correlation, wrapped to 32 bits, for any image and weights |
| Sobels.Accumulate | software/sobel/sobel.c:73-91 | the loop over the weights adds up the nine products of one pixel |
| Sobels.TermsAreCorrelation | software/sobel/sobel.c:75-91 | the products in loop order are the correlation by rows |
| Sobels.PixelIs | software/sobel/sobel.c:79-81 | pixels lie row by row, and outside of the image there are zeros |
| Sobels.GradientX | software/sobel/sobel.c:13-15 | the horizontal gradient is right less left, the middle row counted twice |
| Sobels.GradientY | software/sobel/sobel.c:17-20 | the vertical gradient is above less below, the middle column counted twice |
| Sobels.RunningSumBounds | software/sobel/sobel.c:81-83 | for an 8-bit image every running sum of the two gradients lies within 1020, so no addition wraps |
| Sobels.GradientBounds | software/sobel/sobel.c:13-20 | gradients of an 8-bit image lie within 1020 |
| Sobels.MagnitudeIs | software/sobel/sobel.c:113-117 | the magnitude is the smaller of 255 and the integer square root |
| Sobels.Sobel | software/sobel/sobel.c:102-120 | every output pixel is min(255, floor(sqrt(gx^2 + gy^2))) |
| Asciis.ToHex | software/151_library/ascii.c:41-57 | the printer writes the first min(m, n-1) digits, a terminator, and nothing else |
| Asciis.FromHex | software/151_library/ascii.c:19-35 | the parser returns the value of the digits up to the terminator or m characters, other characters skipped |
| Asciis.ValueOfText | software/151_library/ascii.c:19-57 | the first k of m digits stand for the number without its m-k last digits |
| Asciis.TextIs | software/151_library/ascii.c:41-57 | digit i of m of x is x / 16^(m-1-i) mod 16, printed as 0 to 9 and a to f |
| Asciis.DigitsAre | software/151_library/ascii.c:24-31 | the parser takes 0 to 9, a to f and A to F as digits with their values, and nothing else |
| Asciis.CaseDoesNotMatter | software/151_library/ascii.c:27-31 | the parser reads letters in either case alike |
| Asciis.RoundTrip | software/151_library/ascii.c:19-57 | printing and parsing gives x / 16^(m - min(m, n-1)), hence x once n > m |

## Left out

- OutOfOrderProof.OutOfOrderRefinesInOrder: takes the pipeline as interleaved events; a misprediction squashes in one event, while the core registers the recovery for one clock between the reorder buffer and the alias table and store buffer (src/core.sv:51-64), which `FrontEnds` models for the front end clock by clock; a load does not ask for a byte that a pending store to the print or halt address provides (StoreBuffers.PrintStoreIsLost shows what it would get), and a run ends when a store to the halt address would commit; and no renamed uop is dropped by the reorder buffer, whose drops are no event (RobRuns.FullBufferLosesUops shows one, PipelineSources.LosslessIff says when they happen).
- OutOfOrderProof.RunKeeps: the same events, so no load of a byte on its way to a device, no drops by the reorder buffer and squash in one event.
- OutOfOrderProof.StepKeeps: the same events.
- OutOfOrderProof.SquashKeeps: buffer recovery and table recovery, one registered clock apart in the core, are one event; `FrontEnds.FrontRecovery` keeps them apart.
- FrontEnds.FrontObeys: assumes in every clock that no renamed uop is dropped by the reorder buffer (the group entering it fits, or it recovers), that completions return entries in flight, and that decode delivers uops that are not complete and never write register 0.
- FrontEnds.FrontPartition: the same assumptions, also for FrontEnds.FrontKeeps.
- FrontEnds.FrontRecovery: the same assumptions.
- RobRuns.RunIsQueue: completions that name an entry in flight are assumed to return that entry unchanged but for the branch outcome; the wiring of the execution pipes is not part of that model.
- IssueStages.IssueStage.Step: the groups leaving rename and the reorder buffer are inputs; PipelineSources.SourcesDeliver shows that what the two modules produce is as demanded, and FrontEnds composes them as functions, but their objects are not part of that class.
- IssueQueueMems.IssueQueueMem.Step: the busy answers for the slots are inputs; the registered source indices behind them are not modelled.
- Mailboxes.EveryInterleaving: one call of `process_htio` is one step; exit codes have at most 31 bits (Mailboxes.LongExitRunsACommand shows why), and the exit system call, which only sets the code, is not modelled.
- The ALU is any function; set-less-than replicates the compare bit (src/backend/function_unit.sv:25-26), which is not judged here.
- Multiply, divide and floating-point uops, `imul`, `idiv` and `pipe_2`: unfinished in the source; the divider is modelled alone.
- The decode table and the predictor's tables: predictions are arbitrary, decode is assumed to deliver what `Sequential.InstOk` lists.
- FENCE, ECALL and EBREAK: decode sends them to no queue.
- Instruction memory is fixed while a program runs, and the instruction cache always answers.
- `fifo.v` and `fetch_buffer.sv`: not instantiated.
- `ascii_dec_to_*`, `uint64_to_str`, ELF loading, host file system calls, devices, diagnostic output, signals and argument parsing: input and output or easy members.
- Deletion of store requests and the caller's raw pointers: memory management of C++ has no counterpart in the model.
