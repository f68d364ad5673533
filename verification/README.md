# A verified model of the Tomasulo engine

This project models the C++ out-of-order simulator in `sim/sim_soft` and a
group of the RTL units in `hardware/`, and proves what they compute. Run
`dafny verify dfyconfig.toml` to check all of it.

## The simulator

The simulator executes RV32IF instructions out of order: a fetch queue, a
renaming table, a circular reorder buffer, six reservation stations, a circular
load/store buffer, a common data bus and an in-order commit unit, driven by one
clock loop. The main result is that this machine is indistinguishable from one
that executes an instruction at a time (sections 2.4 to 2.6 of the RISC-V
Unprivileged ISA, document version 20191213), for any latencies, any pipelining
flags and any buffer sizes, and that it always makes progress.

The model has four layers.

* **Sequential machine** (`Isa`, with `RiscV` in `Instructions`): one step per
  instruction, and the trace of a program's run.
* **Machine as a value** (`Words`, `Instructions`, `ArchState`, `Renaming`,
  `Buffers`, `Machines`): one clock cycle as a composition of the loop's phases,
  branch by branch as in the source. Tags are either reorder-buffer slots, as in
  the source, or positions in the dispatch order.
* **Proofs**: the invariant of every unit against the trace (`Invariants`), its
  preservation phase by phase (`StationProofs`, `MemoryProofs`,
  `BroadcastProofs`, `CommitProofs`, `DispatchProofs`, `Refinement`), the
  equivalence of reused slots with tags that are never reused (`Tags`), the
  progress measure (`Progress`), and the theorems about whole runs of the
  simulator as it is (`Simulation`, `Retirement`, `Reachable`, `LoadValues`,
  `Safety`, `Liveness`, `Premises`). What the definitions mean is stated again
  without their vocabulary: the sequential machine opcode by opcode (`IsaSteps`,
  `Shifts`), and the timing of the simulator in terms of its buffers and its
  configuration (`StationTiming`, `AccessTiming`, `CycleTiming`,
  `ResultTiming`, `TimeBounds`).
* **Unit objects** (`Rings`, `RegisterUnits`, `ReorderBufferUnit`,
  `StationUnit`, `LoadStoreUnit`, `FetchUnit`, `RetireUnit`, `Phases`,
  `Simulator`): the source's classes with their fields and loops, each method
  proved equal to the corresponding function of the second layer, up to the
  clock loop and the program as a whole (`Simulator.Simulate`). The assertions
  of the source are preconditions of these methods, so the proof that the loop
  may call them is the proof that no assertion fails.

### Premises

`Simulation.Admissible` collects what the theorems assume about a program:

* its instructions are ones the assembler front end can emit
  (`Instructions.Decodable`, compare `sim/sim_soft/sim.cpp:131-192`) and carry
  their byte addresses, which loading a program guarantees;
* aliasing is unambiguous (`Isa.Unambiguous`): for each executed store and each
  later executed load, comparing byte addresses gives the same answer as
  comparing memory words inside memory. Aligned accesses inside memory are
  enough (`Isa.AlignedIsUnambiguous`). The premise is needed because the alias
  scan compares byte addresses while memory is indexed by word and drops what is
  out of range; `Premises.ForwardingCorrectIff` says exactly which pairs of
  addresses fail, and `Premises.PairRefinesIff` exhibits whole runs of a
  two-instruction program that then end with the wrong register.

Signed overflow and shifts of negative numbers wrap in two's complement. Host
floating-point arithmetic enters as an arbitrary function on bit patterns
(`Instructions.FloatUnit`) about which nothing is assumed. A load latency of
two finishes in the tick that starts it, because the fourth pass counts down
what the third has just started; the model follows the code there. Following
the code rather than the comments, units tick before they snoop, and dispatch
waits behind a control transfer instead of flushing.

## The RTL units

Registers are the fields of classes, one method call is one clock, and bit
vectors are numbers (`Words.Bit`, `Words.Bitwise`).

* `Arbiter`, `CommonDataBusRtl`: the round-robin grant at every width, the bus,
  and its fairness.
* `Floats`, `FloatAdd`, `FloatMul`, `FloatConvert`: the floating-point
  datapaths against exact integer arithmetic. Numbers are scaled by 2^149, so
  that every normal number is an exact integer (`Floats.Scaled`) and no rational
  arithmetic is needed.
* `ResultPipelines`, `BusDelivery`: the back-pressured pipelines and the result
  latches, and how long a result takes to the bus.
* `ByteLanes`: the byte-enabled memory against a byte-addressed one.

## Model

| member | source | states |
|---|---|---|
| Simulation.RunRefinesSequential | sim/sim_soft/sim.cpp:365-467 | Refinement over every run: after any number of cycles registers and memory are those of the sequential RV32IF machine after as many instructions as have retired, all of them really executed by it; when the loop has exited, that machine has finished. Unless a control transfer is pending, fetch stands as many words past that machine's program counter after everything in flight as are already fetched. Instructions younger than a retired HALT leave no trace. |
| Simulation.CycleIsStutterOrStep | sim/sim_soft/sim.cpp:365-467 | Each further cycle retires nothing or exactly one instruction, so each cycle is a stutter or one sequential step. |
| Simulation.SimulatorTerminates | sim/sim_soft/sim.cpp:365-467 | Total correctness: if the sequential machine finishes after h instructions, the loop exits within an explicit number of cycles having retired exactly h, with exactly its final registers and memory. |
| Simulation.RunningTimeBound | sim/sim_soft/sim.cpp:365-467 | While the loop is still running, the cycles spent are bounded by a constant plus a constant per retired instruction, for any latencies, pipelining flags and buffer sizes of at least one. |
| Simulation.FinishUnique | sim/sim_soft/sim.cpp:466-466 | The number of instructions after which the sequential machine finishes is unique, so the exit states above are determined. |
| Simulation.ConfigurationIndependent | sim/sim_soft/include/config.h:9-54 | Two runs under any two choices of latencies, pipelining flags and sizes that have retired equally many instructions agree on registers and memory; if both exit they retired equally many. |
| Retirement.RetiresSequentially | sim/sim_soft/commit_unit.cpp:27-38 | Whatever retires in any cycle of any run is the sequential machine's next instruction: operation, destination, address and value. |
| Retirement.SameRetirements | sim/sim_soft/include/config.h:9-54 | Two configurations retire the same reorder-buffer entry as their k-th: same instruction, same value. |
| Liveness.OldestRetires | sim/sim_soft/reservation_station.cpp:148-180 | Progress: in every reachable running state with something in flight the oldest instruction retires within as many cycles as the potential of that state (free slots weighted by the longest latency, plus all remaining work), even while a younger operation holds an unpipelined unit. |
| Liveness.RobFitsAlways | sim/sim_soft/reorder_buffer.cpp:24-37 | In every reachable state, halted ones included, the reorder buffer holds at most its size. |
| Liveness.EveryCyclePays | sim/sim_soft/sim.cpp:365-467 | Every cycle of every running loop, with slots as tags and whatever stage each instruction is in, lowers the potential of the state by at least one, except that a retirement may raise it by a constant. |
| TimeBounds.FinishedWithin | sim/sim_soft/sim.cpp:365-467 | Total correctness in numbers: with no latency above k, a program of h instructions has ended with exactly the sequential result after robSize (k + 2) + h (k + 3) + 1 cycles. |
| TimeBounds.OldestRetiresWithin | sim/sim_soft/reservation_station.cpp:148-180 | Progress in numbers: with no latency above k, in every reachable state that has not halted the oldest instruction in flight retires within robSize (k + 2) + slots (k + 1) + 1 cycles, slots being all slots of stations and load/store buffer. |
| Progress.HolderWorks | sim/sim_soft/reservation_station.cpp:159-167 | An entry that occupies a unit at the moment another one waits for it makes progress in that same tick. |
| LoadValues.ReachableLoads | sim/sim_soft/load_store_buffer.cpp:89-147 | Memory disambiguation in every reachable state, halted ones included, and for any latency: every finished load still in the buffer holds the data of the youngest older store to its word, or else the initial word, whether it was forwarded or read from memory past older stores. |
| LoadValues.RetiringLoads | sim/sim_soft/commit_unit.cpp:27-55 | Every load that retires in any cycle of any run, including one that finished at the head of the buffer and left it in the same cycle, retires the data of the youngest older store to its word, or else the initial word. |
| LoadValues.MemoryIsYoungestStore | sim/sim_soft/load_store_buffer.cpp:204-213 | In the sequential machine a memory word before instruction n is the data of the youngest store to it, or else its initial value. |
| Premises.ForwardingCorrectIff | sim/sim_soft/load_store_buffer.cpp:110-131 | A load behind a finished store gets the value program order demands, for every memory and every stored value and any latency, if and only if comparing byte addresses agrees with comparing memory words in range; a store to byte 4 with a load of byte 5 is a failing input. |
| Premises.PairRefinesIff | sim/sim_soft/load_store_buffer.cpp:110-147 | Whole runs without the premise: SW x0,a(x0) followed by LW x2,b(x0), dispatched together with one-cycle loads, retire after three cycles with registers that differ from the sequential machine's exactly when a and b are different byte addresses of one word of memory and that word was not zero. |
| Premises.AlignedIsAdmissible | sim/sim_soft/load_store_buffer.cpp:129-130 | The premises of the theorems hold for every well-formed program whose executed loads and stores are word-aligned and inside memory. |
| Premises.StaticallyAlignedIsAdmissible | sim/sim_soft/sim.cpp:157-162 | A condition on the text of a program under which the premises hold: every load and store has base x0 and an aligned offset inside memory. |
| Premises.ZeroRegister | sim/sim_soft/regfile.cpp:15-19 | x0 is zero throughout every sequential run. |
| Reachable.ReachableRenaming | sim/sim_soft/register_remapping_table.cpp:14-28 | Renaming is exact in every reachable state, the one left by HALT included: a register is mapped exactly when some entry in flight writes it (x0 excepted), and then to the slot of the youngest such entry; and at most one control transfer is in flight, always the youngest entry, exactly when dispatch is stalled. |
| Reachable.ReachableOperands | sim/sim_soft/include/dispatch_utils.h:23-39 | In every reachable state, the one left by HALT included, each occupied slot holds one instruction of the sequential trace; each operand is the value its register has just before that instruction or waits for the slot of an older instruction in flight that produces exactly it; different slots carry different tags; whatever is in flight is held by its unit. |
| Safety.RunAssertionsHold | sim/sim_soft/sim.cpp:394-441 | Assertion safety over every run: tags in the renaming table and the load/store buffer are slot numbers, each result broadcast finds its reorder-buffer entry in flight, and a retiring store is the finished head of the load/store buffer. |
| Safety.BusUnique | sim/sim_soft/sim.cpp:407-420 | No two results broadcast in one cycle carry the same tag. |
| Tags.RunRing | sim/sim_soft/reorder_buffer.cpp:24-37 | A whole run with reused reorder-buffer slots as tags is the image of the run with tags that are never reused: slot reuse never satisfies the wrong waiter. |
| Refinement.CycleOk | sim/sim_soft/sim.cpp:365-467 | One pass of the loop keeps the invariant of every unit against the sequential trace; nothing retires or exactly one instruction does; HALT leaves exactly the state at that instruction. This is for tags that are never reused; Tags.RunRing carries it to slots. |
| BroadcastProofs.ExecuteOk | sim/sim_soft/sim.cpp:395-432 | Ticking, reporting finished stores, broadcasting and snooping keep every unit correct: operands, results, ordering and ownership. This is for tags that are never reused; Tags.RunRing carries it to slots. |
| BroadcastProofs.BusValue | sim/sim_soft/sim.cpp:407-425 | Everything on the bus is the sequential result of an instruction still in flight and comes from the unit of its kind. |
| CommitProofs.RetireOk | sim/sim_soft/commit_unit.cpp:22-71 | Retiring the head is exactly one step of the sequential machine, and keeps renaming, memory order, operands and control correct; retiring HALT leaves its final state. This is for tags that are never reused; Tags.RunRing carries it to slots. |
| CommitProofs.HeadStore | sim/sim_soft/commit_unit.cpp:57-61 | A retiring store is the finished head of the load/store buffer, and a retiring instruction that is no store is not in it. |
| CommitProofs.RatShift | sim/sim_soft/register_remapping_table.cpp:22-28 | The guarded release keeps the renaming table exact when a younger instruction has renamed the register since. |
| DispatchProofs.DispatchOk | sim/sim_soft/sim.cpp:223-282 | One dispatch keeps the whole invariant: operands are resolved before the destination is renamed, and a control transfer stalls dispatch. This is for tags that are never reused; Tags.RunRing carries it to slots. |
| DispatchProofs.ProducedOperand | sim/sim_soft/include/dispatch_utils.h:32-38 | The youngest writer in flight supplies the operand from the reorder buffer or is the tag to wait for; either way it is the sequential value. |
| StationProofs.TickOk | sim/sim_soft/reservation_station.cpp:148-180 | A tick keeps every slot correct: results are computed from the sequential operand values, and no slot changes its instruction. |
| MemoryProofs.ForwardedValue | sim/sim_soft/load_store_buffer.cpp:111-126 | The store the alias scan chooses holds the value the sequential machine loads. |
| MemoryProofs.ClearLoadValue | sim/sim_soft/load_store_buffer.cpp:127-147 | With no conflicting store left in the buffer, committed memory holds the value the sequential machine loads. |
| MemoryProofs.LsbTickOk | sim/sim_soft/load_store_buffer.cpp:89-147 | The four passes of a tick keep every buffered access correct and in program order. |
| Isa.LastWriter | sim/sim_soft/regfile.cpp:10-29 | In the sequential machine a register holds what its last writer put into it: the return address for JAL and JALR, the result for every other instruction. Writes to x0 are not writes; Premises.ZeroRegister says what it holds. |
| IsaSteps.StepIsOpcodeStep | sim/sim_soft/reservation_station.cpp:22-69 | Every step of the sequential machine, opcode by opcode and without naming an instruction class: a branch goes to the word of its byte offset or to the following instruction by comparing its two source registers as signed numbers and writes nothing; JAL and JALR write the return address and go to their target; a load puts the addressed word, or 0 out of range, into its bank; a store writes one word in range and no register; every other opcode puts its result into its register and continues behind itself. x0 never changes. |
| IsaSteps.RunIsOpcodeSteps | sim/sim_soft/sim.cpp:365-467 | The whole sequential run starts at word 0 with all 64 registers zero and is a chain of opcode steps, and stays put off the end of the program. |
| IsaSteps.CycleIsOpcodeStep | sim/sim_soft/commit_unit.cpp:22-71 | Every pass of the simulator's loop in every run leaves registers and memory alone or changes them by exactly the opcode step of the instruction that retires. |
| IsaSteps.EmittedIsDecodable | sim/sim_soft/sim.cpp:131-192 | Whatever the assembler front end emits, mnemonic by mnemonic, meets the premise on instructions. |
| Instructions.ExecuteOpIsRiscV | sim/sim_soft/reservation_station.cpp:22-69 | The result switch, with its casts between int32_t and uint32_t, computes for every operation and all operands exactly the RISC-V result of sections 2.4 to 2.6 of the Unprivileged ISA; floating-point arithmetic is that of the host. |
| Instructions.SignedShiftRight | sim/sim_soft/reservation_station.cpp:38-38 | An arithmetic right shift of the signed reading is the shift that fills with copies of the sign bit. |
| Shifts.ShiftsAreBitwise | sim/sim_soft/reservation_station.cpp:36-46 | Every bit of the result of SLL, SRL, SRA, SLLI and SRLI, for all operands: the bit that many places below or above it, zeros shifted in, and copies of the sign bit for SRA. |
| Shifts.LogicalShiftDivides | sim/sim_soft/reservation_station.cpp:37-46 | The result r of SRL and SRLI by s is the quotient: r 2^s <= x < (r + 1) 2^s. |
| Shifts.LogicIsBitwise | sim/sim_soft/reservation_station.cpp:33-35 | And, or and exclusive or of two words, bit by bit, each bit read as the parity of the word divided by a power of two. |
| Simulator.Simulate | sim/sim_soft/sim.cpp:324-467 | The whole simulator: if it reports completion, the sequential machine finishes the program with exactly the registers and memory it returns; with more cycles allowed than the bound it does complete. |
| Simulator.Simulator.Run | sim/sim_soft/sim.cpp:361-467 | The loop over the units reaches exactly the state of the cycle-by-cycle machine after as many cycles as it counts, and stops only when that machine has exited or time is up; every assertion on the way holds. |
| Simulator.Simulator.ClockCycle | sim/sim_soft/sim.cpp:394-464 | One pass over the unit objects, phase by phase, is one cycle of the machine the theorems are about. |
| Simulator.Simulator.TryDispatch | sim/sim_soft/sim.cpp:223-282 | Dispatch succeeds exactly when the front instruction has a reorder-buffer slot and a slot in its unit, and then changes every unit as the machine prescribes; the results of issue that the source ignores are always true. |
| Simulator.Simulator.FetchAndDispatch | sim/sim_soft/sim.cpp:443-459 | Fetching and up to the fetch width of dispatches, stopping behind a control transfer, equal the machine's issue phase. |
| Simulator.Simulator.CommitOne | sim/sim_soft/sim.cpp:434-441 | The commit phase, with the redirection of fetch, equals the machine's retirement of at most one instruction. |
| Simulator.Simulator.BroadcastResults | sim/sim_soft/sim.cpp:407-420 | Popping every finished result leaves the reorder buffer, stations and bus as if all results were written at once, in station order then loads. |
| Phases.DrainStation | sim/sim_soft/sim.cpp:410-416 | The loop that pops one result at a time writes and broadcasts exactly the finished slots in slot order and empties them; the loop terminates. |
| Phases.DrainLoads | sim/sim_soft/sim.cpp:417-421 | The loop over finished loads at the head of the buffer broadcasts exactly that run and removes it. |
| StationTiming.UnpipelinedIsExclusive | sim/sim_soft/reservation_station.cpp:159-167 | In every reachable state of every program, no station has two slots in the middle of the same operation when the pipelining flag of that operation is off. |
| StationTiming.TickInClosedForm | sim/sim_soft/reservation_station.cpp:148-180 | The two in-order passes of a tick, each slot seeing the starts before it, in closed form: what becomes of every slot in terms of the station before the tick. A ready slot starts exactly when its unit is pipelined, or no other slot is in the middle of the same operation beyond this tick and, if the operation takes more than this tick, no lower slot is ready for it. |
| StationTiming.OwnFlag | sim/sim_soft/instruction.cpp:42-62 | Each opcode has the pipelining flag configured for its kind. |
| StationTiming.OwnLatency | sim/sim_soft/instruction.cpp:5-40 | Each opcode has the latency configured for its kind. |
| StationTiming.OwnUnit | sim/sim_soft/sim.cpp:240-260 | Each opcode is dispatched to the station of its kind. |
| ResultTiming.ResultOnTime | sim/sim_soft/reservation_station.cpp:148-180 | Exact timing over every run: the instruction in a slot that is in the middle of an operation with r cycles left, or may start one of latency r now, has no result in the reorder buffer in any of the next r - 1 cycles and has it after exactly r cycles, or has retired by then. |
| AccessTiming.ScanIs | sim/sim_soft/load_store_buffer.cpp:110-123 | The alias scan is blocked exactly when some older store has no address yet or has the same address and no data; otherwise it names the youngest older store to the address, or none. |
| AccessTiming.LoadTick | sim/sim_soft/load_store_buffer.cpp:89-147 | The four passes of a tick in closed form for every load, in terms of the buffer before the tick: when it waits, when and what it takes from a store, when it reads memory, and after how many ticks, latency 2 included. |
| AccessTiming.StoreTick | sim/sim_soft/load_store_buffer.cpp:90-102 | A store is finished in the tick in which its address and its data are both there, and only then. |
| CycleTiming.FetchesAll | sim/sim_soft/instruction_queue.cpp:39-45 | A cycle fetches exactly the least of the width, the room in the queue and the rest of the program, and those are the next instructions of the program. |
| CycleTiming.DispatchesAll | sim/sim_soft/sim.cpp:443-459 | A cycle dispatches the first k instructions of the queue in order, k at most the width, and k is maximal: the last is the first control transfer, or the width is used up, or nothing is left, or the next does not fit the reorder buffer or its unit. |
| CycleTiming.RetireRate | sim/sim_soft/sim.cpp:434-441 | A cycle retires exactly one instruction when the oldest is finished after the broadcast and none otherwise, and adds at most the width to what has been dispatched. |
| CycleTiming.RunRate | sim/sim_soft/sim.cpp:365-467 | In n cycles of any run at most n instructions retire and at most n times the width are dispatched. |
| CycleTiming.NothingLeftOver | sim/sim_soft/sim.cpp:404-432 | After the broadcast of a cycle no station holds a finished operation and no finished load is at the head of the load/store buffer. |
| CycleTiming.StoresReported | sim/sim_soft/load_store_buffer.cpp:224-231 | After reporting, no finished store has a reorder-buffer entry that is still in flight. |
| RegisterUnits.RegisterFile.WriteInt | sim/sim_soft/regfile.cpp:15-19 | Only the named integer register changes, and x0 never does. |
| RegisterUnits.RegisterFile.WriteFp | sim/sim_soft/regfile.cpp:26-29 | Only the named floating-point register changes. |
| RegisterUnits.RegisterFile.ReadReg | sim/sim_soft/regfile.cpp:10-24 | Reads return what the register view holds. |
| RegisterUnits.RegisterRemappingTable.Map | sim/sim_soft/register_remapping_table.cpp:14-20 | Only the named mapping changes, to the given tag; x0 is never mapped. |
| RegisterUnits.RegisterRemappingTable.Commit | sim/sim_soft/register_remapping_table.cpp:22-28 | A mapping is cleared exactly when it still belongs to the retiring tag; nothing else changes. |
| ReorderBufferUnit.ReorderBuffer.constructor | sim/sim_soft/reorder_buffer.cpp:10-14 | A new buffer is empty. |
| ReorderBufferUnit.ReorderBuffer.Allocate | sim/sim_soft/reorder_buffer.cpp:24-37 | When full, -1 and nothing changes; otherwise the new entry is appended to the window in flight and its slot returned, across wrap-around. |
| ReorderBufferUnit.ReorderBuffer.PeekEntry | sim/sim_soft/reorder_buffer.cpp:88-91 | Any slot number reads the entry of the window it holds, or the idle entry. |
| ReorderBufferUnit.ReorderBuffer.WriteBack | sim/sim_soft/reorder_buffer.cpp:46-51 | Exactly the entry of the given slot becomes finished with the value; the source's assertions are the precondition. |
| ReorderBufferUnit.ReorderBuffer.Commit | sim/sim_soft/reorder_buffer.cpp:71-78 | The oldest entry is returned and leaves the window; its slot is reset. |
| Rings.Push | sim/sim_soft/reorder_buffer.cpp:26-36 | Writing the tail slot of a ring appends one element to its window and keeps the slots outside idle. |
| Rings.Pop | sim/sim_soft/reorder_buffer.cpp:73-77 | Resetting the head slot of a ring removes the first element of its window. |
| StationUnit.ResolveOperand | sim/sim_soft/include/dispatch_utils.h:23-39 | The operand comes from the register file, a finished reorder-buffer entry, or is the tag to wait for; a waiting operand leaves the value field as it was. |
| StationUnit.ReservationStation.Issue | sim/sim_soft/reservation_station.cpp:96-119 | Succeeds exactly when some slot is free, fills the first free slot with the resolved operands, and changes no other. |
| StationUnit.ReservationStation.Snoop | sim/sim_soft/reservation_station.cpp:129-137 | Every waiting operand of every unfinished slot catches its tag among all bus results in order; nothing else changes. |
| StationUnit.ReservationStation.Tick | sim/sim_soft/reservation_station.cpp:148-180 | Both passes: running entries count down and finish, then ready entries start in slot order, one per unpipelined unit. |
| StationUnit.ReservationStation.PopResult | sim/sim_soft/reservation_station.cpp:202-213 | The first finished slot is the first of the results still to broadcast, and popping it leaves the rest. |
| StationUnit.ReservationStation.HasResult | sim/sim_soft/reservation_station.cpp:188-192 | True exactly when some result is left to broadcast. |
| StationUnit.BusyCountFull | sim/sim_soft/reservation_station.cpp:217-217 | The occupancy counter equals the size exactly when no slot is free. |
| StationUnit.PopFirst | sim/sim_soft/reservation_station.cpp:202-213 | The first finished slot is the head of the result list, and clearing it leaves the tail and the same drained station. |
| LoadStoreUnit.LoadStoreBuffer.Issue | sim/sim_soft/load_store_buffer.cpp:32-56 | Fails exactly when full; otherwise appends the access with its operands resolved, base register always integer. |
| LoadStoreUnit.LoadStoreBuffer.Snoop | sim/sim_soft/load_store_buffer.cpp:65-74 | Every waiting operand of every unfinished access catches its tag among all bus results in order. |
| LoadStoreUnit.LoadStoreBuffer.Tick | sim/sim_soft/load_store_buffer.cpp:89-147 | The four passes in order: addresses, finished stores, loads started or forwarded, running loads counted down. |
| LoadStoreUnit.LoadStoreBuffer.AliasScan | sim/sim_soft/load_store_buffer.cpp:110-123 | The scan of older stores reports blocked, or the youngest finished store to the same byte address, or none. |
| LoadStoreUnit.LoadStoreBuffer.PopLoadResult | sim/sim_soft/load_store_buffer.cpp:171-178 | The finished load at the head leaves the buffer; the precondition is the source's assertion. |
| LoadStoreUnit.LoadStoreBuffer.CommitStore | sim/sim_soft/load_store_buffer.cpp:204-213 | The head store's word is written if in range, dropped otherwise, and the head leaves the buffer. |
| LoadStoreUnit.LoadStoreBuffer.UpdateRob | sim/sim_soft/load_store_buffer.cpp:224-231 | Every finished store still in flight is marked finished in the reorder buffer, once; nothing else changes. |
| LoadStoreUnit.StartIgnoresLoads | sim/sim_soft/load_store_buffer.cpp:107-139 | What a load does in the third pass depends only on the older stores, not on older loads started in the same pass. |
| FetchUnit.InstructionQueue.LoadProgram | sim/sim_soft/instruction_queue.cpp:23-30 | Each instruction is stamped with its byte address and fetch restarts at 0. |
| FetchUnit.InstructionQueue.Tick | sim/sim_soft/instruction_queue.cpp:39-45 | Up to the fetch width of instructions are appended, until the program or the capacity ends. |
| FetchUnit.InstructionQueue.SeekTo | sim/sim_soft/instruction_queue.cpp:100-103 | The buffer is emptied and fetch continues at the word of the byte address. |
| RetireUnit.CommitUnit.Tick | sim/sim_soft/commit_unit.cpp:22-71 | Retires the head exactly when it is finished and changes register file, renaming table, load/store buffer and memory by its kind; the commit record is that entry. |
| Arbiter.GrantIsFirst | hardware/core/arbiter.sv:23-25 | For every width, one-hot base and non-zero request, the subtract-and-mask expression folds to a one-hot grant at the first requester at or cyclically after the base. |
| Arbiter.NoRequestNoGrant | hardware/core/arbiter.sv:23-25 | With no request nothing is granted, whatever the base. |
| Arbiter.FirstRequesterUnique | hardware/core/arbiter.sv:23-25 | There is only one first requester, so the grant above is determined. |
| Arbiter.Borrow | hardware/core/arbiter.sv:24-24 | Subtracting a one-hot number turns exactly the bits from its position up to the first set bit. |
| CommonDataBusRtl.Cdb.Clock | hardware/core/cdb.sv:44-80 | One clock: the grant is one-hot at the first valid unit after the last one served, the bus carries that unit's result, last_grant stays one-hot and is kept when nobody requests. |
| CommonDataBusRtl.RotateOneHot | hardware/core/cdb.sv:44-44 | Rotating the one-hot last grant names the next unit, wrapping at the top. |
| CommonDataBusRtl.IndexOfOneHot | hardware/core/cdb.sv:52-65 | The masked prefix-or reduction of a one-hot grant is the index of its bit. |
| CommonDataBusRtl.Fairness | hardware/core/cdb.sv:44-80 | In any run a unit that holds its request is granted, with its own result on the bus, within as many cycles as there are units, whatever the others request. |
| FloatAdd.AddCore | hardware/execute/fp_ops/fp_add.sv:47-119 | For all normal operands: less than one unit in the last place from the exact sum; exactly the sum cut off towards zero when effective signs agree; zero exactly when the sum is below the normal numbers and exponent 255 exactly when it is above them; a zero exponent passes the other operand. |
| FloatAdd.DifferenceAligned | hardware/execute/fp_ops/fp_add.sv:80-95 | Alignment loses less than one guard unit of the difference, and nothing when the exponents differ by at most two. |
| FloatAdd.NormalisedSpec | hardware/execute/fp_ops/fp_add.sv:103-116 | Shifting the leading one into place and cutting the guard bits keeps the error below one last bit, through cancellation and down to underflow. |
| FloatAdd.CarrySpec | hardware/execute/fp_ops/fp_add.sv:99-102 | A carry out of the top gives the sum cut off towards zero with the exponent one higher. |
| FloatMul.PartialProductsSum | hardware/execute/fp_ops/fp_mul.sv:71-100 | The four 12 by 12 partial products add up to the exact 48-bit product of the significands. |
| FloatMul.MultiplyIsTruncatedProduct | hardware/execute/fp_ops/fp_mul.sv:71-122 | For all operands with non-zero exponents the result is the exact product cut off towards zero, zero exactly below the normal numbers and the largest finite number exactly above them; otherwise zero. |
| FloatConvert.ToIntIsWholePart | hardware/execute/fp_ops/fp_cvt.sv:48-78 | For every number with non-zero exponent the conversion is its whole part, saturated at the ends of the 32-bit range. |
| FloatConvert.FromInt | hardware/execute/fp_ops/fp_cvt.sv:87-112 | Every integer becomes its value cut off towards zero at 24 significant bits. |
| FloatConvert.IntRoundTrip | hardware/execute/fp_ops/fp_cvt.sv:48-112 | Integer to number and back is the top 24 significant bits of every 32-bit integer, hence the integer itself up to 2^24 in magnitude. |
| FloatConvert.NumberRoundTrip | hardware/execute/fp_ops/fp_cvt.sv:48-112 | Number to integer and back is the identity on every non-zero whole normal number that is a 32-bit signed integer, -2^31 included. |
| Floats.TruncatesUnique | hardware/execute/fp_ops/fp_cvt.sv:87-112 | Two normal numbers that cut off the same value towards zero are the same bit pattern. |
| Floats.Denotes | hardware/execute/fp_ops/fp_add.sv:38-62 | Sign, exponent and fraction make up the 32-bit pattern, and with a non-zero exponent it denotes (-1)^s (2^23 + m) 2^(e-1) in units of 2^-149. |
| FloatAdd.EffectiveNegates | hardware/execute/fp_ops/fp_add.sv:60-62 | Subtraction is addition of the negated operand. |
| FloatConvert.SmallIsZero | hardware/execute/fp_ops/fp_cvt.sv:48-78 | Every operand with a zero exponent, of either sign, converts to zero. |
| ResultPipelines.TwoStage.Clock | hardware/execute/fp_ops/fp_add.sv:136-157 | An offered operation is taken exactly when nothing waits in the second stage or what waits is granted; every register of the next state; what was accepted since the last flush is always what was delivered followed by what is in the stages, in order; an ungranted result stays. |
| ResultPipelines.AddUnit.Clock | hardware/execute/fp_ops/fp_add.sv:131-157 | The adder takes an operation exactly when nothing waits for the bus or what waits is granted, and then with its tag and a result that meets the adder's specification; exactly-once delivery in order under any grant pattern between flushes. |
| ResultPipelines.ConvertUnit.Clock | hardware/execute/fp_ops/fp_cvt.sv:119-160 | The converter takes an operation exactly when nothing waits for the bus or what waits is granted, and then with its tag and the converted value; exactly-once delivery in order under any grant pattern between flushes. |
| ResultPipelines.MultiplyUnit.Clock | hardware/execute/fp_ops/fp_mul.sv:127-180 | The multiplier takes an operation exactly when nothing waits in its last stage or what waits is granted; the four stages deliver the product of each accepted operation exactly once, in order, under any grant pattern between flushes. |
| ResultPipelines.LatchedUnit.Clock | hardware/core/tomasulo_core.sv:398-419 | A one-cycle unit that is given an operation only when it has just finished none and its latch is empty or granted: every register of the next state; each issued result is delivered once, in order, and the unit never finishes while the latch is occupied. The branch latch at lines 459-480 has the same equations. |
| BusDelivery.ReachesTheBus | hardware/execute/fp_ops/fp_mul.sv:127-180 | An operation that enters an empty pipeline asks for the bus after exactly as many clocks as there are stages, whatever is offered or granted meanwhile. |
| BusDelivery.Delivered | hardware/execute/fp_ops/fp_mul.sv:127-180 | Behind a bus that serves whoever keeps asking within g clocks, an item in any stage is granted within g clocks per stage left. |
| BusDelivery.AcceptedIsBroadcast | hardware/core/cdb.sv:44-80 | Pipeline and round-robin bus together, in every run: whatever a unit accepts goes out on the bus with its tag and value within as many clocks as stages times units, whatever the other units ask for. |
| ByteLanes.DataMemory.Clock | hardware/execute/lsb/data_mem.sv:47-55 | One clock writes exactly the enabled byte lanes of the addressed word; the read port returns the word as it was before. |
| ByteLanes.StoreIsBytewise | hardware/execute/lsb/load_store_buffer.sv:117-135 | For every address a store through byte enables and lane replication writes exactly the little-endian bytes of the access, rounded down to its size, modulo the memory. |
| ByteLanes.LoadIsBytewise | hardware/execute/lsb/load_store_buffer.sv:137-166 | For every address a load's lane extraction returns the little-endian bytes of the access with the extension that LoadedNumber gives in numbers. |
| ByteLanes.LoadedNumber | hardware/execute/lsb/load_store_buffer.sv:137-166 | For every address, as numbers: LB and LH read as signed are the addressed byte or halfword in two's complement, LBU and LHU its unsigned value, LW the word. |
| ByteLanes.StoredNumber | hardware/execute/lsb/load_store_buffer.sv:117-135 | For every address, as numbers: a store replaces the addressed byte or halfword of the word by the low bits of the value, or the word, and changes nothing else. |
| ByteLanes.LanesRefineBytes | hardware/execute/lsb/data_mem.sv:47-55 | After any sequence of byte, halfword and word accesses the byte-enabled word memory equals a little-endian byte-addressed memory, and every load from it returns the same value. |

## Left out

- Text parsing, tokenising, the command line, directories and every form of output (`dump`, logs, trace, final files): input and output only; programs start as decoded instructions.
- The cycle limit of 200000: the number of cycles allowed is a parameter.
- `flush` of the simulator's units and `sim/sim_soft/buffer_station.cpp`: the clock loop never calls them.
- Indices of the source are 32-bit `int`; the model's are unbounded, so a program of 2^31 or more instructions is not covered.
- Vectors and deques of the source are sequence-valued fields that methods reassign; fixed-size C arrays and the data memory are arrays updated in place. References into a vector while it is being changed are therefore not modelled.
- Instructions.ExecuteOpIsRiscV: host floating-point arithmetic is the same uninterpreted function on both sides, so rounding, NaN and out-of-range conversions of the host are not modelled.
- FloatAdd.AddCore: nothing is stated for operands with exponent 255, which the unit does not treat as infinities or NaNs; denormal operands are treated as the code treats them, as zeros.
- FloatMul.MultiplyIsTruncatedProduct: operands with exponent 255 are read as ordinary numbers, as the code does.
- ResultPipelines.LatchedUnit.Clock: the integer and branch units are represented by the value they register; what they compute is not modelled for the RTL.
- The RTL load/store buffer as a queue (head, tail, notification of stores, the pending load held until granted) and the RTL core as one machine; `hardware/core/rob.sv`, `dispatch.sv`, `rat.sv`, `commit_unit.sv` and the RTL reservation stations.
- The divider `hardware/execute/fp_ops/fp_div.sv`, rounding modes in `fp_round.sv`, asynchronous reset during operation, and all board, ROM and generated files.
