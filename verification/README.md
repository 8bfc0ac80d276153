# A verified model of the ARM_M_TLM simulator core

ARM_M_TLM simulates an ARM Cortex-M core at instruction level. This project models the parts of it in
which a mistake silently changes what the simulated program does, and proves what they keep: exception
entry and return, the cached fast path to memory, register lists, flag arithmetic, IT blocks, branches,
the exclusive monitor, the bus table, the NVIC with SysTick, the GDB packet and memory commands and the
Intel HEX loader. The modelled configuration is CORTEX_M3.

`dafny verify dfyconfig.toml` checks everything.

## How the model is built

Every component has two layers. The value layer is a set of functions on immutable states (`Regs`,
`MemState`, `Core`, `Port`, ...) that follow the C++ branch by branch; the theorems are about these. The
imperative layer is a set of classes with the fields of the C++ classes (`RegisterFile`, `MemoryDevice`,
`BusController`, `BusPort`, `CpuCore`, `Executor`, `InterruptController`, `SysTickUnit`, `Connection`,
`DebugServer`, `Thread`) whose methods update those fields, loops included, and whose contracts equate the new
state with the value-layer function of the old one. A method that did something else than its function
would not verify, and a function that did something else than the source promises would break the
theorems about it.

32-bit words are bounded integers with the wrap-around of `uint32_t` written out (`Wrap`). Register
lists and IRQ masks are sets of bit positions. A peripheral is the outside world: each transaction that
reaches one is logged, and its answer is an arbitrary function of the log, so theorems hold for every
peripheral. Where the C++ would read or write outside an array the model does not invent a result: a
`wild` flag (memory fast path) or the outcome `None` (HEX loader) marks the run, and theorems say
exactly when that happens.

| module | what it holds |
|---|---|
| `Words`, `Registers` | words, bytes, xPSR fields, banked stack pointers, IT state, the register file |
| `Memory`, `BusCtrl`, `DataPort`, `WordAccess` | FLASH and SRAM, the device table, the cached port, word accesses inside a region |
| `Cpu`, `Nesting`, `Vectors`, `Prologue`, `Drain` | exception entry, return and dispatch; nested exceptions; the vector table and the order of exceptions; handlers that push LR; draining of pending flags |
| `Alu`, `ItBlock`, `Multiple`, `Instruction`, `Branch`, `Exclusive` | flags and carry chains, IT blocks, register lists, decoding, branches, the exclusive monitor |
| `Execute`, `Arithmetic`, `Shifter`, `ItExecution`, `ExclusiveRuns` | whole instructions, what the data-processing ones compute, and runs of them |
| `CpuThread`, `LoopCode` | the loop that takes exceptions, fetches, decodes and executes; code in memory |
| `Nvic`, `SysTick` | interrupt state and the SysTick thread |
| `HexText`, `GdbFraming`, `GdbMemory`, `HexLoader` | hex text, GDB packets, GDB memory commands, HEX files |

## Main results

1. **Exceptions are invisible** (`Nesting.NestedExceptionsInvisible`): from reset, through entries and
   returns nested to any depth, with handlers that may do anything except destroy live frames, unbalance
   a stack, lose the return code in LR or write CONTROL, each branch to LR gives back r0-r3, r12, LR, PC,
   xPSR, MSP, PSP and CONTROL exactly. `Prologue.NestedPopReturnsInvisible` says the same of returns by POP,
   `Prologue.FunctionHandlersInvisible` carries it to handlers that are ordinary functions, with the
   EXC_RETURN value going through PUSH and POP, and `CpuThread.FunctionHandlerInvisible` to the encoded
   instructions of such a handler, run from memory by the instruction loop.
   Pending exceptions go to their own entries of the vector table (`Vectors.EntryTakesVector`) in one order,
   HardFaults raised on the way included (`Drain.PendingTakenInFullOrder`); an interrupt through the table
   as it stands in memory is over in one turn of the loop (`CpuThread.InterruptThroughTable`).
2. **The fast path is the bus** (`DataPort.FastPathRefinesBus`): for every interleaving of fetches, core
   accesses and instruction accesses, each with its own cached descriptor, values and memory are those
   of the plain bus - if and only if no access wraps past the top of the address space in the one way
   the bounds check misses.
3. **Lists and stacks round-trip** (`Multiple.StoreLoadMultipleRestores`, `Multiple.AscendingStackRestores`,
   `Multiple.PushPopRestores`).
4. **Arithmetic is right at any width** (`Alu.WideAddition`, `Alu.WideSubtraction`), and the 16-bit SBC is
   wrong on exactly one input (`Alu.SbcsT16IsAddWithCarry`, `Alu.WideSubtractionT16`). From their encodings,
   the adders, subtractors and compares of both widths give the sums, differences and flags of their
   operands (`Arithmetic.SubComputes` and its neighbours, `Arithmetic.WideDataComputes`), behind a shifter
   that shifts one place at a time (`Shifter.ShiftIsRepeated`).
5. **IT blocks against ITSTATE** (`ItBlock.ItMachineRefines`, `ItExecution.InstructionsMeetItState`, and for
   code in memory with any mix of instructions and exceptions `LoopCode.LoopMeetsItState`): the code
   executes the instructions ITSTATE selects if and only if every slot left of a block in which an SVC was
   executed or an exception handled is open. This needs the masks the code knows, and exactly those
   (`ItBlock.MaskMustBeKnown`).
6. **Exclusive stores are exclusive** (`ExclusiveRuns.StoreExclusiveIff`): over every run of the machine,
   exceptions in between included, STREX stores and reports 0 if and only if the last exclusive-class
   instruction executed before it was a LDREX of the same address and size. A LDREX returns the bytes at its
   address (`ExclusiveRuns.LoadExclusiveReads`), after a STREX the value that was stored
   (`ExclusiveRuns.LoadAfterStore`).
7. **SysTick is on time** (`SysTick.ExpiriesAreExact`) and **IRQs are conserved and drain in order**
   (`Nvic.IrqConservation`, `Nvic.UpdatesDrainInOrder`, `Nvic.DrainIffIrqZeroIdle`); what is enabled and what
   is pending follows from the history of writes and triggers (`Nvic.EnabledIffLastWrite`,
   `Nvic.PendingIffOutstanding`, `Nvic.TriggerSentIffEnabled`).
8. **Text round-trips**: GDB framing under chunking (`GdbFraming.FramingRoundTrip`, with refused frames
   `GdbFraming.FrameAcceptedIff`), GDB memory write and
   read (`GdbMemory.WriteThenRead`), HEX files (`HexLoader.LastWriterWins`, `HexLoader.PrintedImageRestores`).

## Where the code departs from its documentation or from ARM

The model follows the code. Each departure is stated as a theorem with its exact condition where there is
one.

- `start_it` gives length 0 to the masks 0x5, 0x9, 0xA and 0xB: such an IT instruction starts no block and
  the Else slots run (`ItBlock.MaskMustBeKnown`).
- The condition of an IT block is evaluated once, at the IT instruction, while ITSTATE tests the flags anew
  in each slot: the decisions agree if and only if no slot's condition has changed by the time the slot is
  reached (`ItBlock.SnapshotIsLiveIff`, and `ItBlock.LiveFlagsExactly` for blocks cut short as well, with
  `ItBlock.SnapshotDiffersFromLive` as a smallest difference).
- IT state is neither stacked nor cleared on exception entry, and is cleared by the return. A handler's first
  instruction is executed if and only if no block was interrupted or the slot is open
  (`ItExecution.HandlerInheritsItBlock`); in a closed slot a PUSH prologue is skipped
  (`Prologue.PrologueRunsIff`). Being in a block survives an exception exactly when there was none
  (`Nesting.ItStatusSurvivesIff`), so the rest of an interrupted block runs ungated
  (`Prologue.RestOfBlockUngated`).
- SVC clears the IT state when it executes, as every return from an exception does, while ITSTATE goes on
  with the next slot. The rest of a block in which an SVC was executed or an exception handled runs ungated
  (`ItBlock.CodeIsCutRun`), which is harmless if and only if every slot left is open
  (`ItBlock.ItMachineRefines`, `LoopCode.LoopMeetsItState`); `ItBlock.SvcRunsElseSlot` is a smallest
  difference.
- The 32-bit LDM takes whatever it loads into PC for a branch target: a handler that closes with LDM and an
  EXC_RETURN value goes on at that address in Handler mode (`Multiple.WideLoadNeverReturns`).
- The 32-bit LDM and STM write the base back whether the encoding asks for it or not
  (`LoopCode.WideMultipleInMemory`); LDMDB SP!, {.., PC} pops upwards (`Multiple.PopByLdmdb`).
- A shift field with an amount of 0 shifts by nothing, where ARM has LSR #32, ASR #32 and RRX
  (`Shifter.ShiftFieldsAgreeIff`).
- The vector table is always at address 0, whatever VTOR holds (`Vectors.EntryTakesVector`), and priorities
  are fixed, SysTick before PendSV (`Vectors.HighestIsTaken`).
- Exceptions leave the exclusive monitor alone: a store may still succeed after one
  (`ExclusiveRuns.StoreExclusiveIff`).
- The 16-bit SBC reports "no borrow" for 0xFFFFFFFF - 0xFFFFFFFF with C clear; a multi-word difference is
  wrong exactly when some word is that pair and the words below it borrow (`Alu.WideSubtractionT16`).
- `B<cond>.W` decodes its offset correctly only from -2048 to 4094 (`Instruction.CondWideBranchDecodes`).
- A BX or BLX to any address of the form 0xF.......1, 9 or D is taken for an exception return
  (`Branch.ReturnTargets`, `Branch.CallReturns`); POP {PC} does so only for the three architectural values
  (`Multiple.PopBranches`).
- IRQ 0 is never sent and blocks all others while enabled and pending (`Nvic.DrainIffIrqZeroIdle`).
- Reprogramming a running SysTick loses the wake-up during the timed wait: no expiry comes until another
  write, unless the write falls on the very instant of the deadline and leaves the timer enabled with
  TICKINT set and LOAD nonzero; then, and only then, some order of events leads to an expiry
  (`SysTick.ReprogrammedExpiresIff`).
- A device whose range reaches the top of the address space decodes nothing (`BusCtrl.CoversDeclaredRange`).
- The GDB length check is taken in 32 bits: a write whose digit count does not match its length is refused
  if and only if the count is not 2 * length - 2^32 (`GdbMemory.MismatchRefusedIff`,
  `GdbMemory.WrappedWriteEffect`). The smallest case has length 0x80000000 and no digits at all, and zeroes a
  byte (`GdbMemory.EmptyWriteZeroesAByte`).
- A packet whose checksum arrives in another chunk than its '#' is dropped (`GdbFraming.FramingRoundTrip`).
- The HEX loader reads the checksum field but compares it with nothing: a line parses to its record whatever
  the checksum digits are (`HexLoader.ParsePrinted`). It copies as many bytes as the count field says even
  when the line is shorter (`HexLoader.DefinedIffNoOverread`).

## Model

| member | source | states |
|---|---|---|
| `Words.WordBytesRoundTrip` | src/memory/Memory.cpp:142-142 | a word copied to bytes and back is the same word |
| `Registers.FlagsAreBits` | src/cpu/Registers.h:89-106 | N, Z, C and V are bits 31 to 28 of xPSR |
| `Registers.ResetState` | src/cpu/Registers.cpp:78-103 | reset leaves Thread mode on MSP at 0x20001000, the Thumb bit set and all else clear |
| `Registers.RegisterFile.constructor` | src/cpu/Registers.cpp:5-28 | the reset values, with the saved IT condition result left as whatever it was |
| `Registers.RegisterFile.Reset` | src/cpu/Registers.cpp:78-103 | every register returns to its reset value |
| `Registers.RegisterFile.ReadRegister` | src/cpu/Registers.cpp:30-54 | reading by number: 13 is the banked SP in force, above 15 gives 0 |
| `Registers.RegisterFile.WriteRegister` | src/cpu/Registers.cpp:56-76 | writing by number changes that register only; PC drops bit 0, above 15 nothing happens |
| `Registers.RegisterFile.GetCurrentSp` | src/cpu/Registers.h:55-60 | MSP in Handler mode whatever SPSEL says, else the bank SPSEL selects |
| `Registers.RegisterFile.SetSp` | src/cpu/Registers.h:61-71 | writes the selected bank and not the other |
| `Registers.WrittenReadsBack` | src/cpu/Registers.cpp:30-76 | what is written to a register reads back, PC without bit 0; the others stay, and numbers above 15 name nothing |
| `Registers.RegisterFile.BeginIt` | src/cpu/Registers.h:162-187 | the block length follows from the mask, 0 for the unknown ones; the saved condition result stays |
| `Registers.RegisterFile.AdvanceItState` | src/cpu/Registers.h:148-158 | next slot, or no block after the last one |
| `Memory.Translate` | src/memory/Memory.cpp:129-135 | exactly the FLASH and SRAM addresses have an offset, inside the used part of the store |
| `Memory.RegionsAre` | src/memory/Memory.cpp:129-135 | the two regions and their places in the store in numbers |
| `Memory.MemoryDevice.constructor` | src/memory/Memory.cpp:16-27 | the store starts all zero |
| `Memory.MemoryDevice.HandleRead` | src/memory/Memory.cpp:123-144 | little-endian bytes at the translated offset, or an address error |
| `Memory.MemoryDevice.HandleWrite` | src/memory/Memory.cpp:146-167 | only the addressed bytes change; unmapped addresses change nothing and report an error |
| `Memory.MemoryDevice.GetDirectMemPtr` | src/memory/Memory.cpp:206-234 | exactly FLASH (read-only) and SRAM (read-write) get a descriptor, of the whole region |
| `BusCtrl.Decode` | src/bus/BusCtrl.cpp:159-169 | the first covering device, and none exactly when no device covers the address |
| `BusCtrl.CoversDeclaredRange` | src/bus/BusCtrl.cpp:159-169 | a device decodes its declared range if and only if the range ends below 2^32; otherwise it decodes nothing |
| `BusCtrl.SharedAddressConflicts` | src/bus/BusCtrl.cpp:24-45 | the wrapping overlap test misses no address two devices share |
| `BusCtrl.AdditionsKeepTable` | src/bus/BusCtrl.cpp:24-63 | any sequence of additions, with any wrap-around, keeps ranges disjoint and the index right |
| `BusCtrl.DecodeIgnoresOrder` | src/bus/BusCtrl.cpp:159-169 | in a disjoint table the decoded device is the only one covering the address, whatever the order |
| `BusCtrl.SameDevicesDecodeAlike` | src/bus/BusCtrl.cpp:24-63 | two conflict-free lists of the same devices decode every address alike |
| `BusCtrl.PermutationConflictFree` | src/bus/BusCtrl.cpp:24-45 | freedom from conflicts does not depend on the order |
| `BusCtrl.InsertionOrderIrrelevant` | src/bus/BusCtrl.cpp:24-63 | conflict-free devices added in any order decode every address alike |
| `BusCtrl.SimMapDecodes` | src/Simulator.cpp:82-91 | which device of the simulator's map each of the 2^32 addresses reaches |
| `BusCtrl.TransportRoutes` | src/bus/BusCtrl.cpp:144-194 | every transaction reaches the device the map decodes: a peripheral sees exactly its direction, address or offset, size and value, and answers; memory accesses are seen by no peripheral |
| `BusCtrl.BusController.AddDeviceMapping` | src/bus/BusCtrl.cpp:24-63 | the scanning loop appends the device and indexes it, or leaves the table alone on a conflict |
| `BusCtrl.BusController.SetupMemoryMap` | src/Simulator.cpp:82-91 | the three standard devices do not conflict and end up in the table |
| `BusCtrl.BusController.DecodeAddress` | src/bus/BusCtrl.cpp:159-169 | the loop finds the first covering device |
| `BusCtrl.BusController.BTransport` | src/bus/BusCtrl.cpp:144-194 | memory below 0x40000000, the trace unit at a translated address, the NVIC at its own, an error elsewhere |
| `BusCtrl.BusController.GetDirectMemPtr` | src/bus/BusCtrl.cpp:196-207 | descriptors come from the memory device only |
| `DataPort.WindowMeaning` | src/cpu/Execute.cpp:2318-2318 | the wrapping bounds check admits exactly the accesses inside the region and those that wrap past 2^32 |
| `DataPort.ReadAgrees` | src/cpu/Execute.cpp:2313-2376 | in every sound cache state a read equals the bus read unless it wraps with a descriptor cached; the cache stays sound and becomes the region's descriptor |
| `DataPort.WriteAgrees` | src/cpu/Execute.cpp:2378-2437 | the same for a write; only an SRAM descriptor lets a wrapping write escape |
| `DataPort.StepAgrees` | src/cpu/CPU.cpp:123-225 | one access on any of the three ports against the bus, other ports' caches untouched |
| `DataPort.FastPathRefinesBus` | src/cpu/Execute.cpp:2313-2437 | every run from invalid caches returns the values and leaves the memory of the bus-only run, exactly when no access wraps harmfully; each cached descriptor is always the region last touched |
| `DataPort.NonWrappingRunsAgree` | src/cpu/CPU.cpp:550-596 | without wrapping accesses fast and slow route always agree |
| `DataPort.WrappingReadEscapes` | src/cpu/CPU.cpp:175-225 | a concrete run in which a word read at 0xFFFFFFFF escapes through a FLASH descriptor |
| `DataPort.BusPort.ReadMemory` | src/cpu/Execute.cpp:2313-2376 | hit, descriptor request, or bus: value, cache, memory and escape flag as specified |
| `DataPort.BusPort.WriteMemory` | src/cpu/Execute.cpp:2378-2437 | the same for writes |
| `WordAccess.StoreInRegion` | src/memory/Memory.cpp:146-167 | a stored word reads back and no byte outside it changes |
| `WordAccess.ReadsBytes` | src/memory/Memory.cpp:123-144 | a read of 1, 2 or 4 bytes in a region is their little-endian value, zero-extended, and changes nothing |
| `WordAccess.WritesBytes` | src/memory/Memory.cpp:146-167 | a write of 1, 2 or 4 bytes reads back as the low bytes of the value and changes no other byte |
| `WordAccess.StoreDownHolds` | src/cpu/CPU.cpp:513-532 | descending pushes leave the words in reverse order at the final SP and change nothing else |
| `WordAccess.LoadUpHolds` | src/cpu/CPU.cpp:406-417 | ascending pops return the words in address order and change nothing |
| `Cpu.CpuCore.ReadMemoryWord` | src/cpu/CPU.cpp:175-225 | through its own cache the core reads what the bus holds; aligned reads never escape |
| `Cpu.CpuCore.WriteMemoryWord` | src/cpu/CPU.cpp:550-596 | through its own cache the core writes what a bus write would; aligned writes never escape |
| `Cpu.CpuCore.PushExceptionStackFrame` | src/cpu/CPU.cpp:513-548 | eight words on the stack in use, that bank's SP moved by 32, LR set to the code naming the bank |
| `Cpu.CpuCore.HandleException` | src/cpu/CPU.cpp:449-483 | stacking, Handler mode on MSP, vector fetched; a zero vector pends HardFault and keeps PC; no flag is cleared |
| `Cpu.CpuCore.TriggerException` | src/cpu/CPU.cpp:485-504 | exactly NMI, HardFault, PendSV and SysTick set their flag |
| `Cpu.CpuCore.TryReturn` | src/cpu/CPU.cpp:379-447 | accepted exactly for the three low nibbles under a top nibble of F; the whole frame is restored from the bank the code names |
| `Cpu.CpuCore.HandleIrq` | src/cpu/CPU.cpp:261-272 | the recorded external exception number, at least 16, is entered |
| `Cpu.CpuCore.CheckPendingExceptions` | src/cpu/CPU.cpp:328-372 | the highest flag in the fixed order is taken and cleared after entry; a HardFault raised by the entry stays pending |
| `Cpu.CpuCore.RequestSvc` | src/cpu/CPU.cpp:374-377 | sets the SVC flag only |
| `Cpu.CpuCore.BTransport` | src/cpu/CPU.cpp:274-316 | a message on the interrupt line sets the flag of its exception; external ones overwrite the single slot |
| `Nesting.EntryStoresFrame` | src/cpu/CPU.cpp:513-548 | after entry the frame holds r0-r3, r12, LR, PC, xPSR upwards, and no other byte changed |
| `Nesting.ReturnRestores` | src/cpu/CPU.cpp:379-447 | return with the right code from an intact frame and the entry's stack pointers restores the whole context and no memory |
| `Nesting.RoundTripExactly` | src/cpu/CPU.cpp:379-483 | entry and an immediate branch to LR restore the context if and only if PC was even and Handler mode had SPSEL clear |
| `Nesting.EnterKeepsInv` | src/cpu/CPU.cpp:449-483 | entry keeps all live frames intact and leaves an LR that names the bank of the new one, and the CONTROL its handler runs with |
| `Nesting.ReturnKeepsInv` | src/cpu/CPU.cpp:379-447 | a branch to the LR entry left is accepted as a return, keeps the invariant and gives back the context of the innermost frame |
| `Nesting.RunKeepsInv` | src/cpu/CPU.cpp:379-548 | every allowed run of entries, returns and handler work keeps the invariant |
| `Nesting.OuterFramesUntouched` | src/cpu/CPU.cpp:379-548 | a run that stays above a depth leaves the live frames below it as they were |
| `Nesting.NestedExceptionsInvisible` | src/cpu/CPU.cpp:379-548 | an exception whose handler is itself interrupted to any depth and branches to the LR it was given returns r0-r3, r12, LR, PC, xPSR, MSP, PSP and CONTROL exactly, r4-r11 as the handler left them, outside any IT block |
| `Nesting.ItStatusSurvivesIff` | src/cpu/Execute.cpp:1575-1580 | being in an IT block survives an exception if and only if there was no block |
| `Nesting.ResetMeetsInv` | src/cpu/Registers.cpp:78-103 | the reset state meets the invariant |
| `Vectors.EntryTakesVector` | src/cpu/CPU.cpp:449-483 | for every exception whose table entry lies apart from the frame: PC is the entry at 4 * n with bit 0 dropped; a zero entry keeps PC and raises HardFault unless n is 3; IPSR is n; every other flag and register stays |
| `Vectors.FrameBelowSp` | src/cpu/CPU.cpp:513-532 | the frame is pushed on the stack pointer in force |
| `Vectors.HighestIsTaken` | src/cpu/CPU.cpp:328-372 | the exception taken is the one whose flag is set while no flag before it in NMI, HardFault, SVCall, SysTick, PendSV, external is |
| `Vectors.HighestIsCleared` | src/cpu/CPU.cpp:328-372 | then its flag and no other is cleared |
| `Vectors.TakenGoesToVector` | src/cpu/CPU.cpp:328-483 | one dispatch: the highest pending exception goes to its table entry, the frame intact, HardFault raised exactly by a zero entry of another exception |
| `Prologue.PopReturnIsReturnEvent` | src/cpu/Execute.cpp:2093-2133 | a POP of PC that finds an EXC_RETURN value is the last work of a handler in a nested run followed by its branch to LR |
| `Prologue.NestedPopReturnsInvisible` | src/cpu/Execute.cpp:2093-2133 | an exception whose handler is itself interrupted to any depth and returns by POP gives back the same context |
| `Prologue.FunctionHandlersInvisible` | src/cpu/Execute.cpp:2092-2164 | a handler whose PUSH {L, LR} and POP {L, PC} the IT gate lets through, L covering the r4-r7 it clobbers, gives back the whole context, r4-r11 included; the IT status survives exactly when no block was interrupted |
| `Prologue.PrologueRunsIff` | src/cpu/Execute.cpp:1153-1182 | the PUSH moves SP if and only if no IT block was interrupted or its slot is open; otherwise memory and every register but the IT state stay as entry left them |
| `Prologue.RestOfBlockUngated` | src/cpu/Execute.cpp:1153-1182 | after such a handler the next instruction runs ungated, whatever block was interrupted |
| `Prologue.EmptyHandlerBehaves` | src/cpu/Execute.cpp:2092-2164 | the obligations on such a handler can be met: an empty body meets them when its saved words lie apart from the frame |
| `Drain.CallClearsOneFlag` | src/cpu/CPU.cpp:328-372 | one call clears exactly the flag it took and may raise HardFault, never when taking HardFault |
| `Drain.CallDecreasesMeasure` | src/cpu/CPU.cpp:328-372 | 2 * (other flags) + (HardFault flag) strictly decreases with each call |
| `Drain.PendingExceptionsDrain` | src/cpu/CPU.cpp:328-372 | with no new requests everything pending is taken once, in order, within that many calls, even when zero vectors raise HardFault |
| `Drain.PendingTakenInFullOrder` | src/cpu/CPU.cpp:328-483 | the whole sequence: NMI, then a HardFault pending or raised by it, then SVCall, SysTick, PendSV and external, each followed by the HardFault it raises if it has no handler |
| `Drain.MessageIsTakenNext` | src/cpu/CPU.cpp:274-372 | from a quiet core a message makes exactly its exception the next one taken, message 1 the external interrupt last recorded; other numbers do nothing |
| `Drain.MessageSetsOneFlag` | src/cpu/CPU.cpp:274-316 | in every state a message sets the flag of its exception and no other; only external ones record a number |
| `Drain.LastExternalWins` | src/cpu/CPU.cpp:304-306 | of any number of external messages only the last is handled: they share one slot |
| `Alu.AddsIsAddWithCarry` | src/cpu/Execute.cpp:1674-1683 | ADD matches AddWithCarry in result, C and V |
| `Alu.AdcsIsAddWithCarry` | src/cpu/Execute.cpp:1787-1797 | ADC matches AddWithCarry in result, C and V |
| `Alu.SubsIsAddWithCarry` | src/cpu/Execute.cpp:1684-1693 | SUB and CMP match AddWithCarry of the complement with carry in |
| `Alu.SbcsT32IsAddWithCarry` | src/cpu/Execute.cpp:3230-3247 | the 32-bit SBC matches AddWithCarry of the complement |
| `Alu.SbcsT16IsAddWithCarry` | src/cpu/Execute.cpp:1798-1808 | the 16-bit SBC does so if and only if the operands are not both 0xFFFFFFFF with C clear; result and V are always right |
| `Alu.UpdateFlags` | src/cpu/Execute.cpp:2305-2311 | N, Z, C, V from result and carries, the rest of xPSR kept |
| `Alu.ConditionPairs` | src/cpu/Execute.cpp:2259-2303 | flipping bit 0 of any of the sixteen codes negates the condition |
| `Alu.ConditionsAfterCompare` | src/cpu/Execute.cpp:1845-1853 | after CMP of any two words each condition decides the comparison it is named for, unsigned or two's complement |
| `Alu.AdcChainAdds` | src/cpu/Execute.cpp:1787-1797 | C after an ADC chain is the carry out of the whole sum |
| `Alu.SbcChainSubtracts` | src/cpu/Execute.cpp:1798-1808 | an SBC chain computes the difference and its borrow if and only if no step is bad |
| `Alu.ChainOverflow` | src/cpu/Execute.cpp:3211-3247 | V after a chain is overflow of the whole signed operation |
| `Alu.WideAddition` | src/cpu/Execute.cpp:1674-1797 | ADDS and n-1 ADCS give the n-word sum with the true carry out, and V exactly when the signed sum does not fit |
| `Alu.WideSubtraction` | src/cpu/Execute.cpp:3194-3247 | SUBS and n-1 32-bit SBCS give the n-word difference, C exactly "no borrow", V exactly when the signed difference does not fit |
| `Alu.NoBadStepIff` | src/cpu/Execute.cpp:1798-1808 | the steps of a 16-bit SBC chain are all good exactly when no word subtracts 0xFFFFFFFF from 0xFFFFFFFF with a borrow from below, over the operands alone |
| `Alu.WideSubtractionT16` | src/cpu/Execute.cpp:1684-1808 | with the 16-bit SBC the n-word difference is right if and only if no word is 0xFFFFFFFF in both operands while the words below it borrow |
| `Alu.WideSubtractionT16CanFail` | src/cpu/Execute.cpp:1798-1808 | a two-word subtraction the 16-bit SBC gets wrong |
| `ItBlock.StepIsCutStep` | src/cpu/Execute.cpp:1148-1183 | one instruction, IT, taken branches and SVC included, or one handled exception keeps the two machines in agreement and decides alike, gates of a block cut short being open |
| `ItBlock.CodeIsCutRun` | src/cpu/Execute.cpp:2241-2257 | over every sequence with known masks the code is the ITSTATE shift register with every gate open in the rest of a block in which an SVC was executed or an exception handled |
| `ItBlock.ItMachineRefines` | src/cpu/Registers.h:139-198 | over every sequence with known masks the code executes exactly what the ITSTATE shift register selects if and only if every slot left of a block cut short is open |
| `ItBlock.UncutCodeRefines` | src/cpu/Registers.h:139-198 | without SVC and exceptions it does, and is in a block exactly when the shift register is |
| `ItBlock.SvcRunsElseSlot` | src/cpu/Execute.cpp:2249-2252 | in ITE EQ; SVC; X with Z set the code executes X and ITSTATE skips it |
| `ItBlock.MaskMustBeKnown` | src/cpu/Registers.h:170-183 | for all conditions, masks and flags: a block executes as ITSTATE says if and only if its mask is one of the eleven |
| `ItBlock.SnapshotIsLiveIff` | src/cpu/Execute.cpp:2785-2811 | testing the condition once decides like testing it in each slot if and only if in every slot of every block it has the value it had at the IT instruction |
| `ItBlock.LiveFlagsExactly` | src/cpu/Execute.cpp:1148-1183 | with known masks the code agrees with the architecture that tests the current flags if and only if every slot's condition has the value it had at the IT instruction, or true in the rest of a block cut short |
| `ItBlock.ItMachineMeetsLiveFlags` | src/cpu/Execute.cpp:2785-2811 | when no executed instruction of a block changes the flags the rest tests, exactly when every slot left of a block cut short is open |
| `ItBlock.SnapshotDiffersFromLive` | src/cpu/Execute.cpp:2785-2811 | when the flags change it need not: an ITT EQ block whose first instruction clears Z |
| `ItExecution.InstructIsItStep` | src/cpu/Execute.cpp:1148-1183 | executing any modelled instruction, SVC included, is one step of the IT machine |
| `ItExecution.ItemIsItStep` | src/cpu/Execute.cpp:1148-1183 | so is an instruction of any other type, which keeps the IT state or, as CBZ and TBB do, clears it, and an exception that was handled |
| `ItExecution.SkippedChangesNothing` | src/cpu/Execute.cpp:1148-1183 | a skipped instruction changes the IT state only |
| `ItExecution.RunIsItRun` | src/cpu/Execute.cpp:1148-1183 | a run of such steps is a run of the IT machine with the same decisions |
| `ItExecution.InstructionsMeetItState` | src/cpu/Execute.cpp:1148-1183 | every run from outside a block with known masks executes exactly the instructions ITSTATE selects if and only if every slot left of a block cut short is open |
| `ItExecution.InstructionsMeetLiveFlags` | src/cpu/Execute.cpp:1148-1183 | the same runs against current flags: exactly when every slot's condition is still what it was at the IT instruction, or true in the rest of a block cut short |
| `ItExecution.HandlerInheritsItBlock` | src/cpu/CPU.cpp:449-462 | the handler's first instruction is executed if and only if no IT block was interrupted or its slot is open; otherwise only the IT state advances |
| `Multiple.StoreSaves` | src/cpu/Execute.cpp:4313-4321 | the store loop leaves the listed registers ascending in memory and changes no other byte |
| `Multiple.LoadRestores` | src/cpu/Execute.cpp:4290-4307 | the load loop over saved words writes back each listed register |
| `Multiple.StoreLoadMultipleRestores` | src/cpu/Execute.cpp:4262-4343 | STMDB Rn!, L, anything that keeps base and words, LDMIA Rn!, L: listed registers and base come back, all else is kept, for every list without PC |
| `Multiple.StoreLoadMultipleIdentity` | src/cpu/Execute.cpp:4262-4343 | store and immediate load is the identity on registers |
| `Multiple.AscendingStackRestores` | src/cpu/Execute.cpp:4262-4343 | STMIA Rn!, L stores upwards from the base and moves it behind; LDMDB Rn!, L brings list and base back, whatever happened elsewhere in between |
| `Multiple.PopByLdmdb` | src/cpu/Execute.cpp:4278-4281 | LDMDB SP!, {.., PC} does what LDMIA SP!, {.., PC} does |
| `Multiple.ShortStoreLoadRestores` | src/cpu/Execute.cpp:2165-2187 | 16-bit STMIA then LDMIA from the same base restores the list and both times moves the base behind it, unless the list names the base, which then stays |
| `Multiple.WideLoadNeverReturns` | src/cpu/Execute.cpp:4295-4302 | a 32-bit LDM with PC in the list branches to the loaded word with bit 0 cleared and keeps mode, flags, CONTROL and the other stack pointer, for every list, base and memory |
| `Multiple.PushPopRestores` | src/cpu/Execute.cpp:2085-2164 | PUSH and the matching POP for every list; PC becomes LR with bit 0 cleared exactly when LR is no EXC_RETURN value, else the frame at the restored SP is unstacked |
| `Multiple.PopBranches` | src/cpu/Execute.cpp:2101-2126 | POP of PC: an exception return for exactly 0xFFFFFFF1, 0xFFFFFFF9 and 0xFFFFFFFD, else a branch with bit 0 cleared |
| `Instruction.WideBranchDecodes` | src/cpu/Instruction.cpp:547-560 | BL and B.W of section A7.7 decode to the offset they encode, over the whole 25-bit range |
| `Instruction.ShortBranchDecodes` | src/cpu/Instruction.cpp:411-421 | the 16-bit B decodes to its offset |
| `Instruction.ShortCondBranchDecodes` | src/cpu/Instruction.cpp:393-408 | the 16-bit B<cond> decodes to its condition and offset |
| `Instruction.CondWideBranchDecodes` | src/cpu/Instruction.cpp:561-568 | the wide B<cond> decodes to its offset if and only if the offset lies between -2048 and 4094 |
| `Instruction.BxDecodes` | src/cpu/Instruction.cpp:144-168 | BX decodes to its register |
| `Instruction.BlxDecodes` | src/cpu/Instruction.cpp:144-168 | BLX decodes to its register |
| `Instruction.CmpImmDecodes` | src/cpu/Instruction.cpp:97-112 | CMP with an immediate decodes to register and value |
| `Instruction.ShortMultipleDecodes` | src/cpu/Instruction.cpp:383-390 | the 16-bit STMIA and LDMIA decode to base and list |
| `Instruction.ShiftedDecodes` | src/cpu/Instruction.cpp:1211-1358 | 32-bit ADD, ADC, SUB, SBC and CMP decode to registers, S bit and shift |
| `Instruction.PushDecodes` | src/cpu/Instruction.cpp:359-374 | PUSH decodes to the list it encodes, LR included |
| `Instruction.PopDecodes` | src/cpu/Instruction.cpp:359-374 | POP decodes to the list it encodes, PC included |
| `Instruction.ItDecodes` | src/cpu/Instruction.cpp:271-288 | IT decodes to its condition and mask |
| `Instruction.SvcDecodes` | src/cpu/Instruction.cpp:393-399 | SVC decodes to its number and to nothing else |
| `Instruction.AddSubDecodes` | src/cpu/Instruction.cpp:76-96 | the register forms of ADD and SUB decode to their operands |
| `Instruction.AluDecodes` | src/cpu/Instruction.cpp:115-141 | ADC, SBC and CMP decode to their operation and operands |
| `Instruction.LdrexDecodes` | src/cpu/Instruction.cpp:1044-1053 | LDREX decodes to its registers and offset |
| `Instruction.StrexDecodes` | src/cpu/Instruction.cpp:1033-1043 | STREX decodes to its registers and offset |
| `Instruction.ShortExclusiveDecodes` | src/cpu/Instruction.cpp:1083-1140 | the byte and halfword forms decode to their registers |
| `Instruction.ClrexDecodes` | src/cpu/Instruction.cpp:1737-1740 | CLREX decodes |
| `Instruction.MultipleDecodes` | src/cpu/Instruction.cpp:937-1018 | 32-bit STM and LDM decode to direction, base and list, with or without a write-back bit |
| `Branch.BlReaches` | src/cpu/Execute.cpp:1548-1628 | fetched BL goes to PC+4+offset mod 2^32, leaves the odd return address in LR, ends any IT block |
| `Branch.BxGoes` | src/cpu/Execute.cpp:1560-1588 | fetched BX branches to its register or performs the exception return it names |
| `Branch.CallReturns` | src/cpu/Execute.cpp:1560-1604 | BL and later BX LR return to PC+4 exactly unless the return address looks like EXC_RETURN, which needs a call from 0xF0000000-4 up |
| `Branch.ReturnTargets` | src/cpu/CPU.cpp:379-404 | the branch targets taken for exception returns are 0xF, any six hex digits, and 1, 9 or D |
| `Branch.BlxGoes` | src/cpu/Execute.cpp:1560-1588 | fetched BLX goes to its register, or performs the exception return it names, with PC+2 and bit 0 set in LR |
| `Branch.RegisterCallReturns` | src/cpu/Execute.cpp:1560-1588 | BLX and later BX LR come back behind the BLX |
| `Branch.BReaches` | src/cpu/Execute.cpp:1605-1624 | short and wide B reach PC+4+offset |
| `Branch.BCondReaches` | src/cpu/Execute.cpp:1548-1628 | B<cond> branches exactly when its condition holds |
| `Branch.BCondWideReaches` | src/cpu/Execute.cpp:1605-1614 | a taken wide B<cond> reaches its target if and only if the offset lies between -2048 and 4094 |
| `ExclusiveRuns.StepMonitor` | src/cpu/Execute.cpp:3711-3813 | every step of the machine moves the monitor as its view says: exclusive instructions the IT gate lets through, at the address their registers give; nothing else |
| `ExclusiveRuns.RunMonitor` | src/cpu/Execute.cpp:2894-2909 | after every run the monitor is what the views so far leave |
| `ExclusiveRuns.StoreExclusiveIff` | src/cpu/Execute.cpp:3758-3813 | over every run, with exceptions, returns and messages in between, an executed STREX* writes memory and sets Rd to 0 if and only if the last exclusive-class instruction executed before it was LDREX* of the same address and size; else memory is kept and Rd is 1 |
| `ExclusiveRuns.SuccessfulStoresAreInjective` | src/cpu/Execute.cpp:3758-3813 | stores that report 0 have distinct loads behind them, the later one's after the earlier store |
| `ExclusiveRuns.LoadExclusiveReads` | src/cpu/Execute.cpp:3711-3756 | an executed LDREX, LDREXB or LDREXH in a region leaves in Rd the little-endian value of its 4, 2 or 1 bytes at Rn plus offset or Rn, reserves them and changes nothing else |
| `ExclusiveRuns.LoadAfterStore` | src/cpu/Execute.cpp:3711-3813 | such a load after a successful store of the same address and size gets the value stored, modulo 2^(8 * size) |
| `Execute.PairAddition` | src/cpu/Execute.cpp:1674-1797 | ADD and ADC on register pairs compute the 64-bit sum with its carry in C |
| `Execute.PairSubtraction` | src/cpu/Execute.cpp:3194-3247 | 32-bit SUBS and SBCS on register pairs compute the 64-bit difference with "no borrow" in C |
| `Arithmetic.AddComputes` | src/cpu/Execute.cpp:1674-1683 | encoded ADD rd, rn, rm: rd = rn + rm, N, Z, C, V of the sum, nothing else changed |
| `Arithmetic.AdcComputes` | src/cpu/Execute.cpp:1785-1797 | encoded ADC: rd + rm + C |
| `Arithmetic.SubComputes` | src/cpu/Execute.cpp:1684-1693 | encoded SUB rd, rn, rm: rd = rn - rm, C exactly when rn >= rm, V exactly on signed overflow, nothing else changed |
| `Arithmetic.SbcComputes` | src/cpu/Execute.cpp:1798-1811 | encoded SBC: rd - rm - !C, with C "no borrow" except for 0xFFFFFFFF - 0xFFFFFFFF - 1 |
| `Arithmetic.CompareComputes` | src/cpu/Execute.cpp:1630-1853 | encoded CMP rn, rm: the flags of rn - rm and nothing else |
| `Arithmetic.CompareImmediateComputes` | src/cpu/Execute.cpp:1630-1853 | encoded CMP rn, #imm: the flags of rn - imm and nothing else |
| `Arithmetic.WideDataComputes` | src/cpu/Execute.cpp:3178-3247 | encoded 32-bit ADD, ADC, SUB, SBC: sum or difference of the first and the shifted second operand, PC reading as +4; flags changed exactly with the S bit |
| `Arithmetic.WideCompareComputes` | src/cpu/Execute.cpp:3316-3325 | encoded 32-bit CMP: the flags of the difference and nothing else |
| `Shifter.ShiftIsRepeated` | src/cpu/Execute.cpp:4346-4375 | for every word and amount, LSL, LSR, ASR and ROR are the one-place shift applied that often |
| `Shifter.ShiftFieldsAgreeIff` | src/cpu/Execute.cpp:4346-4375 | the shift fields mean what ARM says for every word if and only if they are not LSR, ASR or ROR by 0 |
| `Execute.CompareAndBranch` | src/cpu/Execute.cpp:1548-1853 | CMP then an encoded B<cond> branches exactly when the comparison the condition names holds of the registers |
| `Execute.EncodedPushPop` | src/cpu/Execute.cpp:2085-2187 | PUSH and POP as encoded in memory, decoded and executed, are the list operations the round-trip theorems speak of |
| `Execute.Executor.ReadMemory` | src/cpu/Execute.cpp:2313-2376 | unless it escapes, a read of the execution unit is a bus read |
| `Execute.Executor.WriteMemory` | src/cpu/Execute.cpp:2378-2437 | unless it escapes, a write of the execution unit is a bus write |
| `Execute.Executor.StoreList` | src/cpu/Execute.cpp:4313-4321 | the store loop over registers ascending |
| `Execute.Executor.LoadList` | src/cpu/Execute.cpp:4290-4307 | the load loop over registers ascending, final address included |
| `Execute.Executor.ExecuteT32Multiple` | src/cpu/Execute.cpp:4262-4343 | addresses, loops and write-back of STM and LDM; LDMDB SP with PC treated as LDMIA; PC change reported |
| `Execute.Executor.ExecuteT16Multiple` | src/cpu/Execute.cpp:2165-2187 | 16-bit STMIA and LDMIA; base written back unless listed |
| `Execute.Executor.ExecutePush` | src/cpu/Execute.cpp:2134-2164 | SP moved first, then the stores |
| `Execute.Executor.ExecutePop` | src/cpu/Execute.cpp:2093-2133 | loads, then PC with SP already past it; an EXC_RETURN value unstacks |
| `Execute.Executor.ExecuteDataProcessing` | src/cpu/Execute.cpp:1630-1853 | 16-bit ADD, SUB, ADC, SBC, CMP on registers and flags |
| `Execute.Executor.ExecuteT32DataProcessing` | src/cpu/Execute.cpp:2911-3351 | 32-bit ADD, SUB, ADC, SBC, CMP with a shifted second operand; the result first, then the flags if the S bit is set; PC read as +4 |
| `Execute.Executor.ExecuteIt` | src/cpu/Execute.cpp:2785-2811 | starts a block and records the condition once; mask 0 does nothing |
| `Execute.Executor.ExecuteException` | src/cpu/Execute.cpp:2241-2257 | SVC pends its exception and ends the IT block |
| `Execute.Executor.ExecuteBranch` | src/cpu/Execute.cpp:1548-1628 | the branch dispatch, PC change reported |
| `Execute.Executor.BranchExchange` | src/cpu/Execute.cpp:1560-1588 | BX and BLX, exception returns included, IT state cleared |
| `Execute.Executor.ExecuteExclusiveLoad` | src/cpu/Execute.cpp:3711-3756 | loads and arms the monitor with address and size |
| `Execute.Executor.ExecuteExclusiveStore` | src/cpu/Execute.cpp:3758-3813 | stores only on a match, reports the status, always clears the monitor |
| `Execute.Executor.ExecuteClrex` | src/cpu/Execute.cpp:2894-2909 | clears the monitor |
| `Execute.Executor.ExecuteInstruction` | src/cpu/Execute.cpp:1148-1183 | the IT gate in front of every modelled instruction; PC changes reported exactly |
| `CpuThread.ExecuteFetched` | src/cpu/CPU.cpp:82-97 | an instruction in memory is fetched without side effect, executed, and PC moves on by its size unless the instruction set PC |
| `CpuThread.ReturningHandlerInvisible` | src/cpu/CPU.cpp:68-97 | an interrupt whose handler in memory is BX LR is over within one turn: context back, flag cleared, only the frame's bytes written |
| `CpuThread.InterruptThroughTable` | src/cpu/CPU.cpp:68-97 | the same from memory as it stands before: the table entry of the highest pending exception points to a BX LR; context back, that flag alone cleared, only the frame's bytes written |
| `CpuThread.FunctionHandlerInvisible` | src/cpu/CPU.cpp:68-97 | a handler in memory that is PUSH {L, LR}; POP {L, PC}, for every L, gives the whole context and r4-r11 back after two turns |
| `CpuThread.SupervisorCallReturns` | src/cpu/Execute.cpp:2241-2257 | SVC in memory whose handler is BX LR: two turns later the loop is behind the SVC, the rest of the context is unchanged, the flag clear, only the frame's bytes written |
| `CpuThread.CallThroughMemoryReturns` | src/cpu/CPU.cpp:68-97 | BL in memory to a BX LR in memory: two turns later the loop is behind the BL and nothing but PC, LR and IT state changed |
| `CpuThread.BxLrIsReturn` | src/cpu/Execute.cpp:1560-1588 | the return of the nested-exception runs is the instruction BX LR |
| `LoopCode.LoopMeetsItState` | src/cpu/CPU.cpp:68-97 | code in memory with known masks, for any number of turns, wherever branches lead, instructions of other types and handled exceptions anywhere in between: the loop executes exactly the instructions ITSTATE selects if and only if every slot left of a block cut short is open |
| `LoopCode.LoopMeetsLiveFlags` | src/cpu/CPU.cpp:68-97 | the same code against the current flags |
| `LoopCode.NestedExceptionInterrupts` | src/cpu/CPU.cpp:328-372 | an exception nested to any depth and returned from is such an interruption, and the code goes on where it was |
| `LoopCode.CompareAndBranchInMemory` | src/cpu/CPU.cpp:68-97 | CMP and B<cond> in memory: two turns later the loop is at the target exactly when the condition holds of the comparison |
| `LoopCode.PairAdditionInMemory` | src/cpu/CPU.cpp:68-97 | ADD and ADC in memory: two turns later the register pair holds the 64-bit sum |
| `LoopCode.PairSubtractionInMemory` | src/cpu/CPU.cpp:68-97 | SUB and SBC in memory: the 64-bit difference modulo 2^64; C right if and only if the high words are not both 0xFFFFFFFF while the low words borrow |
| `LoopCode.WidePairSubtractionInMemory` | src/cpu/CPU.cpp:68-97 | SUBS.W and SBCS.W in memory: the 64-bit difference modulo 2^64 with C exactly "no borrow", eight bytes further on |
| `LoopCode.LdrexInMemory` | src/cpu/CPU.cpp:68-97 | LDREX in memory: the word at its address, the monitor on it, four bytes further on |
| `LoopCode.WideMultipleInMemory` | src/cpu/CPU.cpp:68-97 | 32-bit STM and LDM in memory: list transferred, base written back whatever the encoding asks; PC is the loaded word if an LDM names it, else four bytes further on |
| `LoopCode.ShortMultipleInMemory` | src/cpu/CPU.cpp:68-97 | 16-bit STMIA and LDMIA in memory: list transferred, two bytes further on |
| `LoopCode.SkippedInMemory` | src/cpu/CPU.cpp:82-97 | any instruction but IT in a closed slot: PC moves behind it, by two or four bytes as its first five bits say, the block moves one slot on, nothing else changes |
| `LoopCode.OthersMoveOn` | src/cpu/CPU.cpp:82-97 | whatever is decoded at PC, unless it is a branch or a POP or LDM of PC: the loop goes on behind it |
| `LoopCode.TurnIsEvents` | src/cpu/CPU.cpp:68-97 | a turn of the loop is a run of the events the exclusive-monitor results speak of |
| `CpuThread.Thread.FetchInstruction` | src/cpu/CPU.cpp:123-173 | through its own cached descriptor a fetch is a bus read unless it escapes |
| `CpuThread.Thread.ExecuteNext` | src/cpu/CPU.cpp:71-97 | fetch, decode, execute, and the update of PC by instruction size |
| `CpuThread.Thread.ThreadTurn` | src/cpu/CPU.cpp:68-97 | pending exceptions first, then one instruction |
| `CpuThread.Thread.Run` | src/cpu/CPU.cpp:52-121 | any number of turns of the loop |
| `Nvic.PendingMirrorsIspr` | src/peripherals/NVIC.cpp:204-219 | after every run of writes and triggers the internal pending mask equals ISPR |
| `Nvic.EnabledIffLastWrite` | src/peripherals/NVIC.cpp:167-211 | from reset, over every run: an IRQ is enabled if and only if the last write naming it in 0xE000E100-13F or 0xE000E180-1BF went to the former |
| `Nvic.PendingIffOutstanding` | src/peripherals/NVIC.cpp:149-325 | an IRQ is pending if and only if it was requested, by a write to 0xE000E200-23F or a trigger, and since then neither withdrawn through 0xE000E280-2BF nor sent |
| `Nvic.TriggerSentIffEnabled` | src/peripherals/NVIC.cpp:297-325 | a triggered IRQ is sent once by the updates that follow if and only if it is enabled by that rule, unless IRQ 0 is enabled and outstanding |
| `Nvic.PendSvSentOnRequest` | src/peripherals/NVIC.cpp:229-243 | exception 14 is sent once per write of bit 28 to 0xE000ED04, and never else |
| `Nvic.OtherWritesUpdate` | src/peripherals/NVIC.cpp:149-270 | a write to a register without IRQ state still ends in an update; a write to no register does nothing |
| `Nvic.OnlyIcprClears` | src/peripherals/NVIC.cpp:215-219 | apart from sending, only a write to the ICPR bank clears a pending bit |
| `Nvic.IrqConservation` | src/peripherals/NVIC.cpp:149-325 | over every run, rises of a pending bit = sends + clears by ICPR + the pending bit now, per IRQ |
| `Nvic.IrqZeroBlocks` | src/peripherals/NVIC.cpp:310-325 | with IRQ 0 enabled and pending an update does nothing |
| `Nvic.UpdatesDrainInOrder` | src/peripherals/NVIC.cpp:310-339 | otherwise repeated updates send exactly the enabled pending IRQs, each once, ascending, one per update |
| `Nvic.DrainIffIrqZeroIdle` | src/peripherals/NVIC.cpp:310-339 | the enabled pending IRQs drain if and only if IRQ 0 is not among them |
| `Nvic.InterruptController.GetHighestPriorityPending` | src/peripherals/NVIC.cpp:327-339 | the search loop |
| `Nvic.InterruptController.UpdateInterruptState` | src/peripherals/NVIC.cpp:310-325 | sends and clears the lowest enabled pending IRQ unless it is 0 |
| `Nvic.InterruptController.HandleWrite` | src/peripherals/NVIC.cpp:149-270 | the effect of a write to each register bank, then one update; unmapped addresses do nothing |
| `Nvic.InterruptController.RaiseIrq` | src/peripherals/NVIC.cpp:297-308 | IRQs below 32 become pending and are updated; others are ignored |
| `SysTick.NeverStuck` | src/peripherals/NVIC.cpp:383-432 | in every state time, a notification or a deadline can go on, and time never together with the others |
| `SysTick.ExpiriesAreExact` | src/peripherals/NVIC.cpp:170-197 | once armed, and while no register is written, expiry k comes exactly V + k * LOAD ticks later and none is missing |
| `SysTick.ProgrammedTimerIsExact` | src/peripherals/NVIC.cpp:170-197 | LOAD, VAL and CTRL written to a waiting timer: first expiry after VAL, or LOAD if VAL is 0, then every LOAD ticks, low 24 bits counting |
| `SysTick.ExpiryReloads` | src/peripherals/NVIC.cpp:413-430 | at an expiry the counter is loaded from LOAD |
| `SysTick.CountflagTellsExpiry` | src/peripherals/NVIC.cpp:413-430 | COUNTFLAG of an armed timer is set if and only if it has expired since CTRL was last read |
| `SysTick.WrittenCountdownNeverExpires` | src/peripherals/NVIC.cpp:411-432 | a countdown raises an expiry exactly when no register was written during it and TICKINT is set |
| `SysTick.DormantStays` | src/peripherals/NVIC.cpp:383-415 | without a pending notification or valid countdown no expiry comes until a write |
| `SysTick.ReprogrammingStopsTimer` | src/peripherals/NVIC.cpp:170-197 | a write during a countdown whose notification is delivered before the deadline stops the timer until another write |
| `SysTick.ReprogrammedExpiresIff` | src/peripherals/NVIC.cpp:383-432 | after a write during a countdown some run without further writes expires if and only if the write falls on the deadline instant and leaves ENABLE and TICKINT set and LOAD nonzero |
| `SysTick.DeadlineWriteRearms` | src/peripherals/NVIC.cpp:411-416 | at that instant the thread may wake first, and the notification then arms the timer anew |
| `SysTick.SysTickUnit.HandleWrite` | src/peripherals/NVIC.cpp:170-197 | CTRL, LOAD and VAL writes, the sequence number and the notification |
| `SysTick.SysTickUnit.OnWake` | src/peripherals/NVIC.cpp:386-411 | the thread up to its timed wait |
| `SysTick.SysTickUnit.OnTimeout` | src/peripherals/NVIC.cpp:413-430 | the thread after its timed wait |
| `HexText.ParseHexDigits` | src/debug/GDBServer.cpp:736-750 | the accumulating loop |
| `HexText.PairRoundTrip` | src/debug/GDBServer.cpp:736-764 | printing a parsed digit pair gives it back in lower case |
| `HexText.ByteRoundTrip` | src/debug/GDBServer.cpp:736-764 | parsing a printed byte gives the byte |
| `GdbFraming.FramingRoundTrip` | src/debug/GDBServer.cpp:183-243 | for every payload without '$' and '#', after any bytes but '$', the payload sent is the one received, if and only if "#xx" arrives in one chunk; one acknowledgement is sent |
| `GdbFraming.FrameAcceptedIff` | src/debug/GDBServer.cpp:183-232 | a frame is accepted with one '+' if and only if its two digits are the sum of its payload modulo 256; else one '-' is sent and receiving goes on behind it as from the start |
| `GdbFraming.ChecksumIsTotal` | src/debug/GDBServer.cpp:766-773 | the checksum is the sum of all characters modulo 256 |
| `GdbFraming.CalculateChecksum` | src/debug/GDBServer.cpp:766-773 | the summing loop, modulo 256 |
| `GdbFraming.Connection.SendPacket` | src/debug/GDBServer.cpp:234-243 | the frame is appended to what was sent |
| `GdbFraming.Connection.ReceivePacket` | src/debug/GDBServer.cpp:183-232 | the outer loop over chunks, partial packets carried over, replies sent |
| `GdbFraming.Connection.ScanBuffer` | src/debug/GDBServer.cpp:197-228 | the inner loop over one chunk, skipping two bytes after a rejected '#' |
| `GdbMemory.WriteParses` | src/debug/GDBServer.cpp:503-519 | a write packet is taken apart at its first ',' and the ':' after it |
| `GdbMemory.WriteStores` | src/debug/GDBServer.cpp:503-532 | a well-formed write inside a region answers OK and changes exactly its bytes |
| `GdbMemory.ReadReturns` | src/debug/GDBServer.cpp:474-501 | a read inside a region answers the bytes, or E02 above the limit |
| `GdbMemory.MalformedRefused` | src/debug/GDBServer.cpp:474-519 | a command without its separators answers E01 and does nothing |
| `GdbMemory.NothingThereFails` | src/debug/GDBServer.cpp:474-532 | reading or writing where no device answers gives E03 and changes nothing |
| `GdbMemory.WriteThenRead` | src/debug/GDBServer.cpp:474-532 | write then read gives the text in lower case if and only if the length is at most 1024; no other byte changes |
| `GdbMemory.MismatchRefusedIff` | src/debug/GDBServer.cpp:517-519 | a write whose digit count is not twice its length is refused with memory unchanged if and only if the count is not 2 * length - 2^32; it never answers OK |
| `GdbMemory.EmptyWriteZeroesAByte` | src/debug/GDBServer.cpp:517-531 | a write of length 0x80000000 without digits gets through, zeroes the byte at its address and answers E03 |
| `GdbMemory.WrappedWriteEffect` | src/debug/GDBServer.cpp:517-531 | one that gets through stores the bytes it has digits for and a zero behind them, then answers E03 |
| `GdbMemory.DebugServer.HandleReadMemory` | src/debug/GDBServer.cpp:474-501 | every reply and every partial effect of the read command |
| `GdbMemory.DebugServer.HandleWriteMemory` | src/debug/GDBServer.cpp:503-532 | every reply and every partial effect of the write command |
| `GdbMemory.DebugServer.ReadMemoryDebug` | src/cpu/CPU.cpp:599-621 | one one-byte bus read, failing with the bus |
| `GdbMemory.DebugServer.WriteMemoryDebug` | src/cpu/CPU.cpp:623-642 | one one-byte bus write, failing with the bus |
| `HexLoader.ParsePrinted` | src/memory/Memory.cpp:261-290 | whatever line spells a record, in either case and with anything after it, parses to that record |
| `HexLoader.PrinterSpells` | src/memory/Memory.cpp:261-290 | the standard printer spells its record |
| `HexLoader.LoadsItsRecords` | src/memory/Memory.cpp:43-99 | the effect of any file depends on its parsed records only |
| `HexLoader.LastWriterWins` | src/memory/Memory.cpp:43-99 | for every file whose records stay inside their buffers, each data record at a mapped address complete and inside one region: each mapped address holds the byte of the last such record before end-of-file carrying it, else its old byte; records at unmapped addresses load nothing |
| `HexLoader.SpareBytesStay` | src/memory/Memory.cpp:43-99 | bytes of the store no address reaches are never loaded |
| `HexLoader.OtherRecordsIgnored` | src/memory/Memory.cpp:65-94 | other record types, and extended addresses of another length, do nothing; one of two bytes is the upper half of the addresses, high byte first |
| `HexLoader.DefinedIffNoOverread` | src/memory/Memory.cpp:77-93 | loading stays inside its buffers if and only if no record before the end asks for more bytes than its line had |
| `HexLoader.ImageRecordsRestore` | src/memory/Memory.cpp:43-99 | loading the records of an image restores every covered byte, in any order and overlap, and nothing else |
| `HexLoader.PrintedImageRestores` | src/memory/Memory.cpp:43-290 | so does loading any text that spells those records |
| `HexLoader.ParseHexLine` | src/memory/Memory.cpp:261-290 | the parsing loop, with every way it can fail |
| `HexLoader.LoadHexFile` | src/memory/Memory.cpp:43-99 | the loading loop: memory afterwards, end-of-file record, unopened file, undefined copies |
| `HexLoader.LoadRecord` | src/memory/Memory.cpp:65-94 | the switch over record types |

## Left out

- SystemC kernel, TLM payload plumbing and latencies: only the discrete clock and the lost wake-up of the
  SysTick thread are modelled.
- Logging, the Performance counters, the disassembler, Trace, InteractiveUART, `Simulator` wiring and
  `main`: input, output and user interface.
- `cpu_thread`: debug pauses, breakpoints and single-stepping.
- CpuThread.Thread.ExecuteNext: instructions outside the decoded forms become `Other`, on which the model
  only moves PC; decoded are B, B<cond>, BL, BX, BLX, IT, SVC, PUSH, POP, STM, LDM, the 16-bit register ADD,
  SUB, ADC, SBC and CMP, CMP with an immediate, the 32-bit ADD, SUB, ADC, SBC and CMP with a shifted
  register, and the exclusive accesses. The results on IT blocks in `LoopCode` give such instructions an
  arbitrary effect instead.
- CpuThread.Thread.ThreadTurn: the same, and a store that reaches the NVIC raises no pending flag by itself;
  `LoopCode` lets the flags change before every turn.
- CpuThread.Thread.Run: the same, and the start-up through the vector table.
- `reset_from_vector_table`: the model starts from the register reset state.
- Peripherals other than the NVIC and SysTick: an arbitrary function of the accesses so far. A write to the
  NVIC therefore does not call back into the CPU's pending flags inside `MemState`; `CpuCore.BTransport`
  models that message by itself.
- PRIMASK, BASEPRI and FAULTMASK: stored by the source and consulted nowhere in the modelled code.
- NVIC registers that are only stored (VTOR, SHCSR, SHPR, IPR) and reads of NVIC registers: no behaviour
  depends on them here.
- A claim that every IRQ sent is handled: it does not hold (`Drain.LastExternalWins`).
- The order of a register write and the notification inside one simulated instant: every order is allowed.
- `m_systick_seq` as a 64-bit counter: it is unbounded here.
- Most of the decoder table, saturating, multiply, divide, extend, DSP and coprocessor instructions, single
  loads and stores, table branches, MRS/MSR/CPS: bulk without harder theorems.
- `execute_bitfield` and `execute_bit_manipulation`: bit arithmetic on one word without state; the field
  width is masked to five bits, so that width 32 becomes 0.
- Logical operations, shifts by register or by 32, PC-writing MOV and ADD: not claimed to conform to ARM by
  the code.
- 8-byte frame alignment and lazy floating-point stacking: the code has neither.
- GDB sockets, threads, register commands and query strings. `receive_packet` returns an empty string both
  for a closed connection and for an empty packet; the model tells the two apart.
- GDB register round trip: registers are printed little-endian and parsed big-endian.
- Splitting a HEX file into lines: a file is a sequence of lines.
- HexLoader.LoadHexFile: what C++ does after a copy outside the record's buffer is undefined and left open.
- DataPort.BusPort.ReadMemory: the bytes an escaping access would read or write are left open.
