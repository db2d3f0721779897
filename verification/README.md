# rosco_m68k, verified parts

A Dafny model of the algorithmic code in the rosco_m68k repository, with proofs about it. `dafny verify dfyconfig.toml` checks everything. The parts are independent of one another.

**The kernel's physical memory manager** (`kernel/pmm.c`, with the list primitives of `kernel/list.asm`). Memory is a map of words. The free list is threaded through the free blocks themselves, once by address and once by size, and `pmm_free` coalesces in passes that start over after every merge. The model keeps the C code's local variable `size`, which a higher merge leaves stale. Proved: after any sequence of donations, allocations and releases from `pmm_init` on, run on the memory itself (`PmmDriver.Drive`), the address list is the canonical list of maximal free runs, the size list is a permutation of the same blocks, no byte is lost or handed out twice, and freeing undoes allocating node for node.

**The Musashi 68k core** (`tools/r68k/musashi`). Exception entry followed by RTE gives back PC, SR, the three banked stack pointers and the registers, for traps and interrupts on every processor and for bus errors on the 68010; on the others a bus error does not return, in two ways stated below. ADDX, SUBX, ABCD and SBCD chains are arithmetic on numbers of any length. Shifts and rotates by up to 63, with and without X, are the one-bit instruction repeated, for bytes, words and long words. MOVEM saves and restores any register list. The two compile-time arms of the long multiply, the long divide and the long rotates through X are compared for all operands. The staged opcode table builder refines "last match wins" over the entries it reaches.

**Small programs and firmware routines**: the maze generator (`software/2dmaze`), the CRC-32 of the SD card menu (`software/sdfat_menu`), the memory test (`software/memcheck`), the adventure game (`software/adventure`) and the software multiply and divide of the firmware (`stage1/common.c`).

What turned out not to hold, and when it does:

- The size list of the memory manager is documented as ordered by size (`kernel/pmm.c:42-45`). It stays ordered across a `pmm_free` exactly when no remaining block's size lies strictly between the freed block's size without and with its higher neighbour (`Pmm.PhysicalMemory.Free`). `PmmDriver.OrderBreaks` is three calls from `pmm_init` after which it is not; over any sequence of calls the list is always ordered if and only if no freed region meets that condition (`PmmDriver.Drive`). Allocation takes the first block of the list that is large enough, a best fit while the list is ordered; after those three calls, 2 KiB are taken from a block of 4 KiB although one of 2 KiB is free (`PmmDriver.FitIsNotBest`).
- `pmm_alloc` of 0 bytes, or of more than 0xFFFFFC00, rounds to a size of 0 and returns the address of a block that stays free (`PmmRuns.ExclusiveExactlyWhen`).
- The 64-bit and the 32-bit arm of DIVL differ for signed 64/32 divisions of operands of different signs with 2^31 * |b| <= |a| < (2^31 + 1) * |b|, where the quotient is exactly -2^31 (except 2^31 / -1), and for -2^31 / -1 as a 32/32 division whose quotient and remainder share a register, where the 32-bit arm writes the remainder last (`LongDivide.DivNarrow`, `LongDivide.ArmsCanDiffer`).
- The signed division entry points of the firmware divide as unsigned. `SoftArithmetic.SignedDivisionFails` has -4 / 2 and -3 % 2; `SoftArithmetic.Divsi3` and `SoftArithmetic.Modsi3` state exactly for which operands the answer is the signed one.
- The opcode table builder leaves out the rest of the list from the first entry that is out of the order of its stages or whose mask has no stage. `OpcodeTable.Build` says which entries it reaches, `OpcodeTable.ReachedAllWhenGrouped` that these are all exactly when the list is grouped, `OpcodeTable.SortedIsGrouped` that a list sorted by the generator is grouped exactly when every mask has a stage, and `OpcodeTable.StageSkipped` is a sorted list whose last entry stays illegal.
- Every processor stacks the 58-byte bus error frame of the 68010, and RTE gives back the state if and only if the processor is a 68010 (`ExceptionReturns.BusErrorReturns`). A 68000 resumes the instruction with 52 bytes left on the supervisor stack; the others refuse the frame with a format error.
- RTE follows throwaway frames without a bound. It ends if and only if a frame of another kind is met on the way (`Rte.ReturnFromException`, `Rte.LimitDoesNotMatter`); in a memory filled with 0x10 none ever is (`Rte.CanFollowForever`).
- MOVEM stores a long word as two words and loads it as one. At the top of a 24-bit address space these go to different places. A saved register comes back if and only if its place does not straddle the top, or its low word is what memory held there before (`RegisterLists.SaveAndRestore`); `RegisterLists.LostAtTop` saves D0 below an A7 of 2 and gets back its upper word only.
- The memory test's shift register is not maximal: a nonzero seed repeats after exactly 9 words or after exactly 37449 (`LfsrOrder.PeriodIsExact`), so words 37449 apart always hold the same (`LfsrPeriod.FillRepeats`).

## Model

| member | source | states |
|---|---|---|
| `KernelList.InitIsEmpty` | code/firmware/rosco_m68k_firmware/kernel/list.asm:161-168 | an initialised header is an empty doubly linked list |
| `KernelList.DeleteKeepsLinked` | code/firmware/rosco_m68k_firmware/kernel/list.asm:116-140 | deleting a node leaves the list of the others, linked both ways, and changes no word but the predecessor's next and the successor's previous |
| `KernelList.InsertKeepsLinked` | code/firmware/rosco_m68k_firmware/kernel/list.asm:45-66 | inserting after any position, header included, gives the list with the node there, linked both ways |
| `FreeBlocks.CanonicalUnique` | code/firmware/rosco_m68k_firmware/kernel/pmm.c:42-49 | two canonical lists that cover the same bytes are the same list |
| `FreeBlocks.PermutationOf` | code/firmware/rosco_m68k_firmware/kernel/pmm.c:42-49 | lists without duplicates over the same blocks are equal as multisets |
| `PmmLayout.SameBlocks` | code/firmware/rosco_m68k_firmware/kernel/pmm.c:42-54 | whenever memory represents a free list, the size list is a permutation of the address list |
| `PmmLayout.UnlinkKeeps` | code/firmware/rosco_m68k_firmware/kernel/pmm.c:146-148 | unlinking a block's two nodes leaves both lists without that block |
| `PmmLayout.DeletesCommute` | code/firmware/rosco_m68k_firmware/kernel/pmm.c:243-244 | the two deletions commute, so allocation's order does as well as coalescing's |
| `Coalesce.LowerComesFirst` | code/firmware/rosco_m68k_firmware/kernel/pmm.c:138-189 | a scan never meets a lower neighbour after a higher merge |
| `Coalesce.HigherAtMostOnce` | code/firmware/rosco_m68k_firmware/kernel/pmm.c:138-189 | nor a second higher neighbour |
| `Coalesce.CoalescedFits` | code/firmware/rosco_m68k_firmware/kernel/pmm.c:178-199 | when no pass can merge any more, the merged block fits between its list neighbours and touches neither |
| `Coalesce.CoalescedCovers` | code/firmware/rosco_m68k_firmware/kernel/pmm.c:109-225 | the merged block and the remaining ones cover exactly the old free bytes and the freed region |
| `Coalesce.OvertakesRemaining` | code/firmware/rosco_m68k_firmware/kernel/pmm.c:213-218 | the order condition, stated before the call, is the one on the blocks left at the insertion |
| `Coalesce.NoHigherMergeKeepsOrder` | code/firmware/rosco_m68k_firmware/kernel/pmm.c:213-218 | without a higher neighbour the order condition holds |
| `Coalesce.OrderCanBreak` | code/firmware/rosco_m68k_firmware/kernel/pmm.c:142-153 | a concrete list and freed region for which the order condition fails |
| `Pmm.PhysicalMemory.constructor` | code/firmware/rosco_m68k_firmware/kernel/pmm.c:104-107 | pmm_init: both lists empty, nothing but the headers written |
| `Pmm.PhysicalMemory.ScanPass` | code/firmware/rosco_m68k_firmware/kernel/pmm.c:138-189 | one pass merges a neighbour and asks for another pass, or finds the place in the address list |
| `Pmm.PhysicalMemory.CoalescePasses` | code/firmware/rosco_m68k_firmware/kernel/pmm.c:134-203 | the restart loop ends after one pass more than there are neighbours, lower merge first, and the stored size is the exact sum |
| `Pmm.PhysicalMemory.SizePosition` | code/firmware/rosco_m68k_firmware/kernel/pmm.c:213-221 | finds the first larger block, or the end of the list |
| `Pmm.PhysicalMemory.Free` | code/firmware/rosco_m68k_firmware/kernel/pmm.c:109-225 | pmm_free: both lists stay consistent, exactly the freed bytes are added, the list is canonical again, merges and passes are the expected ones, and the size order survives if and only if the condition holds |
| `Pmm.PhysicalMemory.FirstFit` | code/firmware/rosco_m68k_firmware/kernel/pmm.c:237-265 | finds the first block of the size list that is large enough, if there is one |
| `Pmm.PhysicalMemory.Alloc` | code/firmware/rosco_m68k_firmware/kernel/pmm.c:227-270 | pmm_alloc: 0 exactly when no block is large enough, else exactly the rounded size is taken from the front of the first block of the size list that is large enough, a best fit while that list is ordered; only free memory and headers are written |
| `Pmm.PhysicalMemory.AllocThenFree` | code/firmware/rosco_m68k_firmware/kernel/pmm.c:109-270 | allocating and freeing again gives back the identical address list |
| `PmmRuns.FreeUndoesAlloc` | code/firmware/rosco_m68k_firmware/kernel/pmm.c:109-270 | freeing what was just allocated gives back the identical list, whichever block was split |
| `PmmRuns.ExclusiveExactlyWhen` | code/firmware/rosco_m68k_firmware/kernel/pmm.c:232-263 | the returned region is off the free list if and only if the request is from 1 to 0xFFFFFC00 bytes |
| `PmmRuns.HugeRequestIsNotExclusive` | code/firmware/rosco_m68k_firmware/kernel/pmm.c:232-251 | a concrete request that rounds to nothing |
| `PmmRuns.FreeAddsBytes` | code/firmware/rosco_m68k_firmware/kernel/pmm.c:109-225 | the total of free bytes grows by exactly the freed size |
| `PmmRuns.AllocTakesBytes` | code/firmware/rosco_m68k_firmware/kernel/pmm.c:227-270 | and shrinks by exactly the allocated one |
| `PmmRuns.EveryRun` | code/firmware/rosco_m68k_firmware/kernel/pmm.c:104-270 | on free lists and held regions as values, and through `PmmDriver.Drive` of the manager: in every state of every run from pmm_init, free and held regions are disjoint, the free list is canonical, and every donated byte is free or held |
| `PmmRuns.HistoryLeavesNoTrace` | code/firmware/rosco_m68k_firmware/kernel/pmm.c:104-270 | two runs with the same donations and nothing held end with the same free list |
| `PmmDriver.HeldIsOutside` | code/firmware/rosco_m68k_firmware/kernel/pmm.c:109-118 | a held region meets what pmm_free asks of its caller, so it may be released |
| `PmmDriver.NewIsOutside` | code/firmware/rosco_m68k_firmware/kernel/pmm.c:109-118 | so does a region that no call gave before |
| `PmmDriver.Drive` | code/firmware/rosco_m68k_firmware/kernel/pmm.c:104-270 | any sequence of pmm_init, donations, allocations and releases on the memory itself is such a run, whose events answer the commands one by one: a region given is freed, a request is one allocation of the rounded size from the first block of the size list that is large enough, giving back is one release; both lists consistent, free and held disjoint, every byte given accounted for, the size list a permutation, and ordered after all calls if and only if no freed region overtakes a block |
| `PmmDriver.OrderBreaks` | code/firmware/rosco_m68k_firmware/kernel/pmm.c:109-225 | three calls of pmm_free from pmm_init after which the size list is not ordered |
| `PmmDriver.OvertakingMerges` | code/firmware/rosco_m68k_firmware/kernel/pmm.c:142-153 | overtaking needs a free block right above the freed region |
| `PmmDriver.FitIsNotBest` | code/firmware/rosco_m68k_firmware/kernel/pmm.c:227-270 | a fourth call, an allocation that splits a larger block than it must |
| `Cpu68k.SwitchKeepsStacks` | code/tools/r68k/musashi/m68kcpu.h:1504-1526 | saving A7 in its slot and loading another moves none of USP, ISP and MSP |
| `Cpu68k.CcrOfValue` | code/tools/r68k/musashi/m68kcpu.h:1538-1545 | setting and reading the condition codes is the identity on their five bits |
| `Cpu68k.SrOfValue` | code/tools/r68k/musashi/m68kcpu.h:855-867 | the same for the whole status register |
| `Cpu68k.SrFields` | code/tools/r68k/musashi/m68kcpu.h:855-867 | a status register read from any flags gives back S, M, the trace bits and the mask |
| `Cpu68k.Cpu.SetModes` | code/tools/r68k/musashi/m68kcpu.h:1504-1526 | m68ki_set_s_flag and m68ki_set_sm_flag keep the three stack pointers and every other register |
| `Cpu68k.Cpu.ChangeModes` | code/tools/r68k/musashi/m68kcpu.c:651-653 | over any sequence of S and M changes the three stack pointers that m68k_get_reg reports are unchanged |
| `Cpu68k.Cpu.SetSrNoInt` | code/tools/r68k/musashi/m68kcpu.h:1548-1559 | afterwards the status register reads as the value under the processor's mask; stacks and registers are kept |
| `Exceptions.LongFrameReads` | code/tools/r68k/musashi/m68kcpu.h:1612-1633 | a stacked four-word frame reads back, with the stack anywhere in the address space |
| `Exceptions.ShortFrameReads` | code/tools/r68k/musashi/m68kcpu.h:1603-1607 | so does the three-word frame |
| `Exceptions.StackFrameApart` | code/tools/r68k/musashi/m68kcpu.h:1612-1633 | a frame's words do not overlap, also where the address lines wrap around |
| `Exceptions.InitException` | code/tools/r68k/musashi/m68kcpu.h:1588-1600 | supervisor mode on the same M, trace off, the old status register returned, no stack moved |
| `Exceptions.StackFrame0000` | code/tools/r68k/musashi/m68kcpu.h:1612-1623 | three words on the 68000, four with format 0 elsewhere, holding PC, SR and the vector's offset |
| `Exceptions.StackFrame0010` | code/tools/r68k/musashi/m68kcpu.h:1638-1644 | a six-word frame with format 2 that holds PC, SR, the vector's offset and the instruction's address |
| `Exceptions.StackFrame1000` | code/tools/r68k/musashi/m68kcpu.h:1666-1713 | a 29-word frame with format 8 and the vector's offset, the words between written as zero or left alone |
| `Exceptions.VectorIn` | code/tools/r68k/musashi/m68kcpu.h:2108 | a vector is the long word four times its number above the vector base |
| `Exceptions.ExceptionTrapN` | code/tools/r68k/musashi/m68kcpu.h:1854-1862 | TRAP #n: the frame on the supervisor stack holds PC, SR and the vector's offset, the other stacks and registers are untouched |
| `Exceptions.ExceptionTrap` | code/tools/r68k/musashi/m68kcpu.h:1838-1851 | group 2 exceptions: the same, with the format 2 frame from the 68020 on |
| `Exceptions.ExceptionPrivilegeViolation` | code/tools/r68k/musashi/m68kcpu.h:1892-1908 | the frame points at the refused instruction |
| `Exceptions.ExceptionBusError` | code/tools/r68k/musashi/m68kcpu.h:1915-1948 | the frame is stacked from the register file the instruction began with and points at it; a second fault while stacking halts |
| `Rte.FrameKept` | code/tools/r68k/musashi/m68kcpu.h:1628-1633 | a second frame that does not overlap the first leaves it readable |
| `Rte.PushThrowaway` | code/tools/r68k/musashi/m68kcpu.h:2116-2122 | the throwaway frame goes on the interrupt stack and the master frame stays intact |
| `Rte.ExceptionInterrupt` | code/tools/r68k/musashi/m68kcpu.h:2064-2133 | an interrupt that is taken sets the mask to 256 times its level, stacks one frame, or two with M set, and goes on at the vector, or at the uninitialized interrupt vector; one that is not taken changes nothing but the stopped state |
| `Rte.CheckInterrupts` | code/tools/r68k/musashi/m68kcpu.h:2137-2146 | takes the non-maskable interrupt, or one above the mask, and otherwise changes nothing |
| `Rte.CheckTwice` | code/tools/r68k/musashi/m68kcpu.h:2137-2146 | an interrupt that was taken is not taken again while its line stays asserted |
| `Rte.LinesAndMasks` | code/tools/r68k/musashi/m68kcpu.h:2137-2146 | a line asserted at a level is pending, and is serviced at that level, exactly when the mask is lower; the non-maskable interrupt is serviced at 7 |
| `Rte.LevelNumber` | code/tools/r68k/musashi/m68kcpu.h:2105 | the mask of an interrupt being serviced is 256 times its level |
| `Rte.SetSr` | code/tools/r68k/musashi/m68kcpu.h:1578-1582 | the status register under the mask, and then any interrupt it lets through |
| `Rte.ReturnOrFormatError` | code/tools/r68k/musashi/m68k_in.c:9212-9307 | a known frame is popped in full and execution goes on from it; any other raises a format error with the state untouched |
| `Rte.FollowFrames` | code/tools/r68k/musashi/m68k_in.c:9272-9307 | throwaway frames lead from stack to stack to the frame that is returned from |
| `Rte.ReturnFromException` | code/tools/r68k/musashi/m68k_in.c:9201-9310 | RTE for every processor, frame and mode: return, format error or privilege violation; it is done within the limit if and only if a frame that is no throwaway is met within it |
| `Rte.FinishedExactlyWhen` | code/tools/r68k/musashi/m68k_in.c:9272-9307 | following frames ends exactly when one that is no throwaway is on the way |
| `Rte.LimitDoesNotMatter` | code/tools/r68k/musashi/m68k_in.c:9272-9307 | with a limit that suffices RTE does what it does with every higher one, and so without one |
| `Rte.CanFollowForever` | code/tools/r68k/musashi/m68k_in.c:9272-9307 | on a memory filled with 0x10, RTE of the processors that know throwaway frames is not done after any number of them |
| `ExceptionReturns.ReturnFromFrame` | code/tools/r68k/musashi/m68k_in.c:9201-9310 | RTE takes PC and SR from any frame the processor knows and moves the supervisor stack by the size it takes that frame to have |
| `ExceptionReturns.ReturnFromEntry` | code/tools/r68k/musashi/m68k_in.c:9201-9310 | RTE from any state a handler leaves in which the entry frame still stands restores PC, SR under the mask, the three stacks and the registers |
| `ExceptionReturns.TrapNReturns` | code/tools/r68k/musashi/m68k_in.c:9201-9310 | TRAP #n then RTE is the identity on PC, SR under the mask, stacks and registers, A7 included |
| `ExceptionReturns.TrapReturns` | code/tools/r68k/musashi/m68k_in.c:9201-9310 | the same for group 2 exceptions and their format 2 frame |
| `ExceptionReturns.InterruptReturns` | code/tools/r68k/musashi/m68kcpu.h:2064-2133 | the same for an interrupt, also with M set, where two frames on two disjoint stacks are unwound |
| `ExceptionReturns.BusErrorReturns` | code/tools/r68k/musashi/m68kcpu.h:1915-1948 | a bus error then RTE resumes the faulting instruction with its starting registers, stacks and SR if and only if the processor is a 68010; a 68000 is left 52 bytes low, the others raise a format error |
| `ExtendedArithmetic.AddLimbValue` | code/tools/r68k/musashi/m68kcpu.h:770-771 | sum and carry flag of one limb are the integer sum |
| `ExtendedArithmetic.SubLimbValue` | code/tools/r68k/musashi/m68kcpu.h:770-771 | difference and borrow flag of one limb are the integer difference |
| `ExtendedArithmetic.ChainStep` | code/tools/r68k/musashi/m68k_in.c:1648-1663 | one more limb keeps the multi-precision equation, Z and the untouched operands |
| `ExtendedArithmetic.Overflow` | code/tools/r68k/musashi/m68kcpu.h:774-784 | whether the whole signed result fits shows in the signs and the carry of the last limb |
| `ExtendedArithmetic.Addx32` | code/tools/r68k/musashi/m68k_in.c:1648-1663 | one ADDX.L on memory: registers, memory and flags |
| `ExtendedArithmetic.Subx32` | code/tools/r68k/musashi/m68k_in.c:10110-10125 | one SUBX.L on memory |
| `ExtendedArithmetic.AddxChain` | code/tools/r68k/musashi/m68k_in.c:1648-1663 | n ADDX.L add n-limb integers: sum modulo 2^(32n) in memory, carry in X and C, Z if and only if it was set and the sum is zero, N its sign, V signed overflow; the source operand and all other bytes unchanged |
| `ExtendedArithmetic.SubxChain` | code/tools/r68k/musashi/m68k_in.c:10110-10125 | the same for n SUBX.L and subtraction |
| `DecimalArithmetic.AddBytesValue` | code/tools/r68k/musashi/m68k_in.c:1043-1066 | ABCD of valid digits is decimal addition with carry, and gives valid digits |
| `DecimalArithmetic.SubBytesValue` | code/tools/r68k/musashi/m68k_in.c:9446-9469 | SBCD of valid digits is decimal subtraction with borrow, and gives valid digits |
| `DecimalArithmetic.AbcdChain` | code/tools/r68k/musashi/m68k_in.c:965-1066 | n ABCD on any two address registers, A7 stepping by two, add 2n-digit decimal numbers, X the carry, every result byte valid, Z as for ADDX; the source operand and all other bytes unchanged |
| `DecimalArithmetic.SbcdChain` | code/tools/r68k/musashi/m68k_in.c:9368-9469 | n SBCD subtract them, X the borrow, with the same frame |
| `RegisterLists.PlacesApart` | code/tools/r68k/musashi/m68k_in.c:7079-7097 | neither word stored for one register lies where another is loaded from, also where the address lines wrap around |
| `RegisterLists.KeptExactly` | code/tools/r68k/musashi/m68k_in.c:7079-7213 | when a long word stored as two words and loaded as one comes back |
| `RegisterLists.MovemPush` | code/tools/r68k/musashi/m68k_in.c:7079-7097 | every listed register, Ay included with its old value, is stored in its place, so that a load gives it back, or its upper word alone where the place straddles the top; Ay moves by four bytes a register; nothing else is written |
| `RegisterLists.MovemPull` | code/tools/r68k/musashi/m68k_in.c:7196-7213 | every listed register but Ay is loaded from its place, the others are kept, and Ay ends above the block |
| `RegisterLists.SaveAndRestore` | code/tools/r68k/musashi/m68k_in.c:7079-7213 | for all lists, saving, overwriting every other register, and loading with the mirrored list restores Ay, and any other listed register if and only if its place does not straddle the top of a 24-bit address space or its low word was there before |
| `RegisterLists.LostAtTop` | code/tools/r68k/musashi/m68k_in.c:7079-7213 | on a 68000 with A7 at 2, saving and loading D0 gives back its upper word only |
| `LongMultiply.PartialProductsExact` | code/tools/r68k/musashi/m68k_in.c:7575-7587 | the four 16x16 products and their carries are the exact 64-bit product |
| `LongMultiply.MullArmsAgree` | code/tools/r68k/musashi/m68k_in.c:7496-7617 | both arms give the same registers and flags for all operands and forms |
| `LongMultiply.MullIsMultiplication` | code/tools/r68k/musashi/m68k_in.c:7496-7544 | they are the mathematical product, with V exactly when the long form loses it |
| `LongDivide.ShiftSubtract` | code/tools/r68k/musashi/m68k_in.c:4671-4699 | the 64 steps divide a 64-bit number exactly, also when the remainder's top bit falls out |
| `LongDivide.DivNarrow` | code/tools/r68k/musashi/m68k_in.c:4625-4756 | the shift-and-subtract arm agrees with the 64-bit arm if and only if the stated operands are avoided, and what it does on those |
| `LongDivide.DivlIsDivision` | code/tools/r68k/musashi/m68k_in.c:4553-4622 | the registers hold quotient and remainder: a = q*b + r with r smaller in size than b and of the sign of a; with one register for both, the quotient; Z says that the dividend is the smaller, N is the quotient's top bit, other registers are unchanged; -2^31 / -1 gives back 2^31 |
| `LongDivide.DivlOutcome` | code/tools/r68k/musashi/m68k_in.c:4553-4622 | a zero divisor traps, and a 64/32 division overflows exactly for the operands stated, whose quotient has no 32 bits |
| `LongDivide.UndefinedMeans` | code/tools/r68k/musashi/m68k_in.c:4571-4578 | the one division that C does not define is -2^63 / -1 |
| `LongDivide.LeastQuotient` | code/tools/r68k/musashi/m68k_in.c:4700-4714 | the quotient is -2^31 exactly for a dividend in the stated interval |
| `CDivision.QuotientRemainder` | code/tools/r68k/musashi/m68k_in.c:4575-4576 | C's truncating division is the one with that property |
| `LongDivide.ArmsCanDiffer` | code/tools/r68k/musashi/m68k_in.c:4625-4756 | concrete operands for both ways the arms differ |
| `ShiftForms.AsrStep` | code/tools/r68k/musashi/m68k_in.c:1928-2081 | asr by k+1 is asr by k and one bit more, carry included, for all three widths |
| `ShiftForms.AslStep` | code/tools/r68k/musashi/m68k_in.c:2162-2270 | the same for asl |
| `ShiftForms.AslOverflowStep` | code/tools/r68k/musashi/m68k_in.c:2162-2270 | V of asl by k+1 is that of k, or the sign changes in the last step |
| `ShiftForms.LsrStep` | code/tools/r68k/musashi/m68k_in.c:5353-5460 | the same for lsr |
| `ShiftForms.LslStep` | code/tools/r68k/musashi/m68k_in.c:5535-5642 | the same for lsl |
| `ShiftForms.RorStep` | code/tools/r68k/musashi/m68k_in.c:8470-8548 | the same for ror, counts modulo the width |
| `ShiftForms.RolStep` | code/tools/r68k/musashi/m68k_in.c:8624-8719 | the same for rol |
| `Shifts.HandlerIsIterated` | code/tools/r68k/musashi/m68k_in.c:1928-2270 | for every operation, width, operand and count, result and carry are those of the one-bit instruction repeated |
| `Shifts.OverflowIsSignChange` | code/tools/r68k/musashi/m68k_in.c:2162-2270 | V of asl is set exactly when the sign bit changed at some step |
| `Shifts.CountIsModulo` | code/tools/r68k/musashi/m68k_in.c:5612 | the count is the register modulo 64 |
| `Shifts.ShiftRegister` | code/tools/r68k/musashi/m68k_in.c:1928-2270 | the six handlers on the processor: Dy, X, N, Z, V and C as after the one-bit instruction repeated as often as Dx modulo 64 says |
| `RotateThrough.Rol9IsIterated` | code/tools/r68k/musashi/m68k_in.c:9048-9076 | roxl of a byte by any count is that many one-bit rotates of X and the byte |
| `RotateThrough.Rol17IsIterated` | code/tools/r68k/musashi/m68k_in.c:9079-9106 | the same for a word |
| `RotateThrough.Rol33IsIterated` | code/tools/r68k/musashi/m68k_in.c:9109-9138 | the same for a long word |
| `RotateThrough.Ror9IsIterated` | code/tools/r68k/musashi/m68k_in.c:8824-8851 | roxr of a byte |
| `RotateThrough.Ror17IsIterated` | code/tools/r68k/musashi/m68k_in.c:8854-8881 | roxr of a word |
| `RotateThrough.Ror33IsIterated` | code/tools/r68k/musashi/m68k_in.c:8884-8913 | roxr of a long word |
| `RotateThrough.Ror9UndoesRol` | code/tools/r68k/musashi/m68kcpu.h:310-317 | roxr by k undoes roxl by k on a byte and X |
| `RotateThrough.Ror17UndoesRol` | code/tools/r68k/musashi/m68kcpu.h:312-319 | on a word and X |
| `RotateThrough.Ror33UndoesRol` | code/tools/r68k/musashi/m68kcpu.h:302-307 | on a long word and X |
| `RotateThrough.Count33IsModulo` | code/tools/r68k/musashi/m68k_in.c:8893 | the count used is the count modulo 33 |
| `RotateThrough.Count9IsModulo` | code/tools/r68k/musashi/m68k_in.c:8831 | the count used for a byte is the count modulo 9 |
| `RotateThrough.Count17IsModulo` | code/tools/r68k/musashi/m68k_in.c:8861 | and for a word the count modulo 17 |
| `RotateHandlers.WideIsTurned9` | code/tools/r68k/musashi/m68k_in.c:8824-8851 | ROL_9 and ROR_9 computed in 32 bits: what the handler keeps of the result, upper bits of Dy and X included, is X and the byte rotated by one bit as often as the count says |
| `RotateHandlers.WideIsTurned17` | code/tools/r68k/musashi/m68k_in.c:8854-8881 | the same for ROL_17 and ROR_17 |
| `RotateHandlers.WideIsTurned33` | code/tools/r68k/musashi/m68k_in.c:8884-8913 | the same for ROL_33_64 and ROR_33_64 in 64 bits |
| `RotateHandlers.NarrowIsTurned` | code/tools/r68k/musashi/m68k_in.c:8915-8941 | for every count the 32-bit arm of the long rotates gives the same 33 bits |
| `RotateHandlers.RotateThroughX` | code/tools/r68k/musashi/m68k_in.c:8824-8941 | roxl and roxr of Dy by Dx at all three widths: X and the operand rotated together as often as Dx modulo 64 says, the rest of Dy and the other registers unchanged, C = X, V = 0, N and Z of the result |
| `RotateHandlers.RotateThroughXNarrow` | code/tools/r68k/musashi/m68k_in.c:9140-9166 | the 32-bit arms promise the same of a long word |
| `RotateHandlers.RotateThereAndBack` | code/tools/r68k/musashi/m68k_in.c:9048-9166 | at all three widths roxl then roxr by the same register gives back Dy and X |
| `OpcodeTable.Builder.StampAll` | code/tools/r68k/musashi/m68k_in.c:185-197 | an entry of the first stage is entered for exactly the opcodes it matches |
| `OpcodeTable.Builder.StampLow` | code/tools/r68k/musashi/m68k_in.c:198-207 | so is one whose free bits are enumerated |
| `OpcodeTable.Builder.StampPair` | code/tools/r68k/musashi/m68k_in.c:208-232 | so is one with two free fields, with two cycles added per bit of a static shift |
| `OpcodeTable.Builder.StampField` | code/tools/r68k/musashi/m68k_in.c:243-252 | so is one with a register field free |
| `OpcodeTable.Build` | code/tools/r68k/musashi/m68k_in.c:167-270 | for any list with an entry of the first stage, every opcode gets the slot of the last entry that matches it among those the builder reaches, illegal if none does; it reaches all if and only if the list is grouped |
| `OpcodeTable.ReachedAllWhenGrouped` | code/tools/r68k/musashi/m68k_in.c:181-268 | no entry is left out exactly when the masks from the first stage on are in the order of the stages and have one each |
| `OpcodeTable.StageSkipped` | code/tools/r68k/musashi/m68k_in.c:181-268 | a sorted list of three entries whose last one stays illegal |
| `OpcodeTable.CostIsTwiceDistance` | code/tools/r68k/musashi/m68k_in.c:218-228 | the cycle adjustment is twice the shift distance, 0 standing for 8 |
| `OpcodeTable.NumBitsCounts` | code/tools/r68k/musashi/m68kmake.c:561-568 | num_bits counts the bits |
| `OpcodeTable.SortedIsGrouped` | code/tools/r68k/musashi/m68kmake.c:809-826 | a list sorted by the generator is grouped as the builder needs if and only if the builder has a stage for every mask |
| `OpcodeTable.LookupIsMostSpecific` | code/tools/r68k/musashi/m68kmake.c:809-826 | then the slot an opcode gets is that of a matching entry with the most mask bits |
| `GrowingTree.PathIsUnique` | code/software/2dmaze/2dmaze.c:94-121 | in a tree grown node by node, simple paths are unique |
| `GrowingTree.PathExists` | code/software/2dmaze/2dmaze.c:94-121 | and exist between any two nodes |
| `Maze.StepsAreAdjacent` | code/software/2dmaze/2dmaze.c:98-101 | the step test of the source holds exactly for neighbouring squares of the grid, also for C's division of a negative square |
| `Maze.DirectionsMean` | code/software/2dmaze/2dmaze.c:26-34 | north and south change the row by one, east and west the column |
| `Maze.CarveGrows` | code/software/2dmaze/2dmaze.c:103-111 | opening a wall to an unvisited square grows the tree by it |
| `Maze.FinishedMaze` | code/software/2dmaze/2dmaze.c:75-122 | a finished maze: walls open from both sides, passages only between neighbours, squares - 1 of them, exactly one simple path between any two squares |
| `Maze.Grid.InitMaze` | code/software/2dmaze/2dmaze.c:75-122 | whatever the random numbers, the carved squares form a tree, and a spanning tree when the loop ends; the grid is that of `Maze.Wander`, the loop on values |
| `MazeCompletion.CanFinish` | code/software/2dmaze/2dmaze.c:94-121 | from every state of the walk some random numbers complete the maze |
| `MazeCompletion.CanAlwaysFinish` | code/software/2dmaze/2dmaze.c:94-121 | and however the numbers went on from there, some continuation of them completes it |
| `MazeCompletion.InitMazeCanFinish` | code/software/2dmaze/2dmaze.c:75-122 | so InitMaze can still finish after any random numbers, for every size of maze |
| `Maze.Grid.Play` | code/software/2dmaze/2dmaze.c:138-193 | every arrow typed before Quit moves the player one square in its direction if that side of the maze is open and not at all if it is closed; the trail has one square for each; the squares it led through, and no others, are marked; the walls never change |
| `Crc32Table.TableIsBits` | code/software/sdfat_menu/sdfat_menu.c:91-120 | each of the 256 table entries is eight steps of the reflected polynomial |
| `Crc32Table.LowByteDecides` | code/software/sdfat_menu/sdfat_menu.c:124-127 | eight bit steps act on the low byte and shift the rest |
| `Crc32.TableStepIsByteStep` | code/software/sdfat_menu/sdfat_menu.c:124-127 | the table step is the bit-by-bit CRC of section 8 of RFC 1952 on one byte |
| `Crc32.Crc32b` | code/software/sdfat_menu/sdfat_menu.c:89-129 | crc32b computes that CRC, continued from the one given |
| `Crc32.CrcAppend` | code/software/sdfat_menu/sdfat_menu.c:819-828 | the CRC of a file does not depend on how it is cut into chunks |
| `Crc32.CheckValue` | code/software/sdfat_menu/sdfat_menu.c:89-129 | the CRC of the nine digits 1 to 9 is 0xCBF43926 |
| `Crc32.BurstDetected` | code/software/sdfat_menu/sdfat_menu.c:89-129 | buffers of one length that differ only within 32 bits in a row, wherever these start, never share a CRC |
| `Crc32.UpdateIsBits` | code/software/sdfat_menu/sdfat_menu.c:124-127 | the CRC byte by byte is the CRC bit by bit, each byte's lowest bit first |
| `Crc32.FourBytesAreABurst` | code/software/sdfat_menu/sdfat_menu.c:89-129 | a difference within four bytes in a row, in particular one byte, is such a burst |
| `Crc32.Menu.FileCrc` | code/software/sdfat_menu/sdfat_menu.c:656-712 | filecrc and filesize are those of the chunks read, up to the first stop, the first empty chunk or the end |
| `Crc32.Menu.WriteTestFile` | code/software/sdfat_menu/sdfat_menu.c:952-978 | the CRC kept while writing is that of the sectors written, up to and with the first that is cut short |
| `Crc32.Menu.WriteAndVerify` | code/software/sdfat_menu/sdfat_menu.c:952-992 | a test is good if and only if the bytes read up to the first stop and those written up to the first short write have one CRC; so an uninterrupted one verifies a file read back unchanged in any chunks, and rejects one that differs by a burst of at most 32 bits |
| `SoftArithmetic.DivMod32` | code/firmware/rosco_m68k_firmware/stage1/common.c:3-27 | divmod ends for all 32-bit operands; quotient and remainder for a nonzero divisor; what it gives for zero |
| `SoftArithmetic.Divsi3` | code/firmware/rosco_m68k_firmware/stage1/common.c:29-37 | the unsigned quotient, and exactly when it is the signed one |
| `SoftArithmetic.Modsi3` | code/firmware/rosco_m68k_firmware/stage1/common.c:32-40 | the unsigned remainder, and exactly when it is the signed one |
| `SoftArithmetic.BothRemaindersZero` | code/firmware/rosco_m68k_firmware/stage1/common.c:32-40 | a negative dividend and a positive divisor give the signed remainder exactly when the divisor is a power of two and the bits of the dividend below it are zero |
| `SoftArithmetic.SignedDivisionFails` | code/firmware/rosco_m68k_firmware/stage1/common.c:29-40 | -4 / 2 gives 0x7ffffffe and -3 % 2 gives 1 |
| `SoftArithmetic.Mulsi3` | code/firmware/rosco_m68k_firmware/stage1/common.c:42-55 | the product modulo 2^32 |
| `MemoryTest.PreviousUndoesNext` | code/software/memcheck/memcheck.c:378-386 | the shift register's step can be undone |
| `MemoryTest.NextUndoesPrevious` | code/software/memcheck/memcheck.c:378-386 | and reaches every state: it is a bijection on 24 bits |
| `MemoryTest.NeverZero` | code/software/memcheck/memcheck.c:378-386 | from a nonzero state it never reaches zero |
| `MemoryTest.NeverMeet` | code/software/memcheck/memcheck.c:378-386 | different seeds never reach the same state after equally many steps |
| `LfsrPeriod.IterateIsLinear` | code/software/memcheck/memcheck.c:378-386 | any number of steps is linear over exclusive or |
| `LfsrPeriod.Doubled` | code/software/memcheck/memcheck.c:378-386 | 2n steps from 1 are the square, as a polynomial, of n steps |
| `LfsrPeriod.EveryStateReturns` | code/software/memcheck/memcheck.c:378-386 | every state comes back after 37449 steps |
| `LfsrPeriod.FillRepeats` | code/software/memcheck/memcheck.c:481-501 | whatever the seed, words a multiple of 37449 apart are filled alike |
| `LfsrPeriod.ShortFill` | code/software/memcheck/memcheck.c:378-386 | a seed that repeats after 9 steps |
| `LfsrOrder.BackAfterGcd` | code/software/memcheck/memcheck.c:378-386 | a state that is back after two step counts is back after their greatest common divisor |
| `LfsrOrder.PeriodIsExact` | code/software/memcheck/memcheck.c:378-386 | a nonzero state is back after n steps if and only if n is a multiple of its period, which is 9 for the states that 9 steps bring back and 37449 for all others |
| `MemoryTest.Tester.InitLfsr` | code/software/memcheck/memcheck.c:362-372 | the first clock reading whose salted value has nonzero low 24 bits is taken, the salt grows by one a reading, and that value is the state that reset_LFSR returns to |
| `MemoryTest.Tester.Fill` | code/software/memcheck/memcheck.c:481-501 | for every memory size the chunked loops store the register's sequence |
| `MemoryTest.Tester.Verify` | code/software/memcheck/memcheck.c:513-547 | errors grows by exactly the number of words that differ from the sequence, and the pass is bad if there is one |
| `MemoryTest.Pass` | code/software/memcheck/memcheck.c:476-555 | an uninterrupted pass counts exactly the words changed since the fill |
| `Adventure.OnlyOne` | code/software/adventure/adventure.c:284-312 | a name is the name of one item only, so the searches by name agree |
| `Adventure.TakeKeepsPlaced` | code/software/adventure/adventure.c:428-445 | taking keeps every item in exactly one slot or at one location |
| `Adventure.DropKeepsPlaced` | code/software/adventure/adventure.c:393-402 | so does dropping |
| `Adventure.MapFacts` | code/software/adventure/adventure.c:201-235 | the map leads nowhere off it, never into the secret room, and not beyond the tunnel door |
| `Adventure.VerbChosen` | code/software/adventure/adventure.c:788-824 | a direction or its letter is a movement, and any other line is the command its first letter names, whatever order the cases are tried in |
| `Adventure.CommandedKeeps` | code/software/adventure/adventure.c:788-824 | no command shuts a door, brings back the wolf or takes more than a turn, and only the key opens the tunnel |
| `Adventure.Game.DoTake` | code/software/adventure/adventure.c:409-455 | takes an item that is here into the first free slot, and otherwise changes nothing |
| `Adventure.Game.DoDrop` | code/software/adventure/adventure.c:377-406 | drops a carried item here, and otherwise changes nothing |
| `Adventure.Game.DoGo` | code/software/adventure/adventure.c:458-502 | moves along the map or not at all |
| `Adventure.Game.DoExamine` | code/software/adventure/adventure.c:505-559 | only the bookcase changes anything, from wherever it is examined |
| `Adventure.Game.DoUse` | code/software/adventure/adventure.c:562-661 | the effect of each item, for items at hand only |
| `Adventure.Game.DoActions` | code/software/adventure/adventure.c:674-737 | the game ends exactly when a supply is missing in time, the rats attack, or it is won; the rats come closer by one step in the tunnel without cheese; any state that goes on is in time |
| `Adventure.Game.Initialize` | code/software/adventure/adventure.c:740-778 | the start of a game: both doors shut, the flashlight carried, every invariant holds |
| `Adventure.Game.Turn` | code/software/adventure/adventure.c:788-824 | one command, chosen by the line, and its actions: the whole new state, and what it keeps; the tunnel opens only with the key in the vacant room |
| `Adventure.Game.Play` | code/software/adventure/adventure.c:740-833 | in every state of every game each item is in exactly one slot or place, the places beyond the tunnel are reached only after the key opened it, the lamp is lit only after the bookcase was opened, and no live state has 40 turns without food, 50 without water or 60 without the lit lamp at hand; the final state is that of the lines played one by one |

## Left out

- Task switching, semaphores, slab allocation, boot stages, device drivers (ATA, SD, IDE, keyboard), Easy68k traps, display code: glue, input and output, or assembly that is not algorithmic.
- Interrupt masking inside the memory manager: each call is atomic.
- `list.asm`: the NULL checks of the list primitives, which no call from the memory manager reaches.
- Pmm.PhysicalMemory.Free: requires what the source asks of its callers, a region outside both headers and every free block whose rounded size is positive and does not wrap.
- The maze is generalised from 10 x 10 to any size; its random numbers are a finite sequence, so that InitMaze may stop unfinished, which by `MazeCompletion.InitMazeCanFinish` it never has to; how likely it is to finish is not stated; drawing is left out. The float comparison of two random numbers is on integers.
- Cycle counting, trace, prefetch, address errors (switched off in this configuration), FPU and PMMU.
- Exceptions: the interrupt acknowledge is a parameter, the bus is a function from addresses to bytes, and the special status words of the format 8 frame are not told apart.
- Rte.ReturnFromException: follows at most `limit` throwaway frames and says whether it finished, because nothing in the source bounds them; a run that ends is covered by a limit that suffices (`Rte.LimitDoesNotMatter`).
- Rte.FollowFrames: likewise.
- DecimalArithmetic.AbcdChain: says nothing of N and V, which the source marks as undefined, and requires two different address registers and operands that do not overlap.
- DecimalArithmetic.SbcdChain: likewise.
- ExtendedArithmetic.AddxChain: requires that the operands do not overlap and are held in two different address registers.
- ExtendedArithmetic.SubxChain: likewise.
- LongDivide.DivNarrow: -2^63 / -1 is undefined in the C of the 64-bit arm, so only the other arm's outcome is stated.
- The illegal-instruction path of the long multiply and divide on processors before the 68020.
- Immediate-count and memory shifts, bit fields, the word forms of multiply and divide and the other instructions.
- Crc32.Menu.WriteAndVerify: opening files and messages are left out.
- MemoryTest.Tester.InitLfsr: takes the clock's readings as a finite sequence; building the memory map and key presses are left out.
- Adventure.Game.Play: messages, the introduction and playing again are left out; lines have any length.
- C's int counters (turns, errors) are unbounded.
