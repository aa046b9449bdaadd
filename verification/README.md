# An AArch64 emulator, modelled and proved

The emulator fetches, decodes and executes A64 instructions over 32 registers, a stack pointer, condition
flags and 128 MB of byte memory, translates addresses through page tables that live in that memory, takes
and returns from exceptions, and serves block requests from a virtio disk.  This project models those four
state machines with the wrap-around, the edge cases and the error exits the code has (compiled, as its
Makefile does, without asserts) and proves what they are for:

* **Instructions.** The addition, bit-mask, extension and branch arithmetic equals the Arm definitions
  (DDI 0487, appendix J1 and section C1.2.4) on all inputs, or has an exact condition for when it does.  The
  decoder takes every modelled layout apart again, and each executed instruction has its state written out.
* **Whole programs.** The recursive `fibonacci` and the loop `testfn_sum` of the repository's test data,
  placed in memory as machine words and run by the emulator's main loop, return the right value for every
  argument, after an exact number of instructions, with everything else as it was.
* **Virtual memory.** The nested walk computes a declarative map; a store and a following load agree through
  every alias as long as the store does not hit the descriptors walked; a push and a pop undo each other.
* **Exceptions.** Entries and returns as whole states, and which interrupt a turn of the main loop takes.  In every
  properly nested run, at any depth, the level agrees with the program counter and every return restores what its
  entry interrupted, although software can never restore SPSR_EL1.  For runs that switch contexts there is an exact
  condition and a run that violates it.
* **Block device.** What a driver relies on, from the bytes of its descriptors to those of disk and buffer; disk
  round trip, footprint of a request, history of the used ring over any number of completions and index
  wrap-arounds; these and the cached queue layout also over runs of the whole machine.

## How it is laid out

`Words` and `Util` hold machine words as integers, bits, and the helpers of `utils.h`.  `Memory`, `Bus`,
`Virtio` and `Processor` (in `Cpu.dfy`) hold classes in the form of the source: fields that methods update in
place, each method proved against a function of the old state.  Of the instruction handlers only `LogicalImm`,
which has a loop, is listed below; the others are part of `Processor.Cpu.DecodeStart`.  `Isa` holds those
functions: the processor state as a value, the decoder, and what each instruction does.  `Machines` adds disk,
timer and interrupts, and `Emulator` is the main loop, proved to be the iteration of one turn.  The properties are
in `Flags`, `BitMasks`, `Shifts`, `Immediates`, `Meaning`, `Effects`, `Accesses`, `ControlFlow`, `Encodings`, `Mmu`,
`VirtualMemory`, `PushPop`, `Fibonacci`, `Sum`, `Wrappers`, `Exceptions`, `VirtioProperties`, `DriverRequests`,
`RequestRuns`, `LayoutRuns` and `LoopRequests`; `Runs`, `Listings`,
`Programs` and `Pairs` carry the reasoning about programs one instruction at a time.

A run is stated over a step function `f` with `Emulates(f)`, which says that `f` is `Isa.Step`; `Emulator`
instantiates it.  The quantifiers over `Open(z)` in `Emulates`, `Reads`, `Has`, `Does`, `Stops`, `Moves`, `Transfers`,
`Accesses`, `Completes`, `Turned`, `Ends`, `Left`, `LeavesBy`, `IsFibonacci`, `IsSum` and `IsWrapper` add no meaning:
they keep a definition folded until `Open` is mentioned.

## Where the code departs from its documentation

The model follows the code.  Facts stated below as theorems are marked with their member.

* The 64-bit flag computation sets N from the second operand and loses C when the unbounded sum of the adder
  reaches 3 * 2^63 (`Flags.AddImmS64Flags`); for every condition code `Flags.Compare64` gives the operands whose
  comparison is decided correctly, `Flags.Compare64Witness` two that are not.
* SXTH extends from bit 7 (`Immediates.SxthRightIffByte`).
* Indexed single loads and stores with base sp never move sp, they change register 31 of the array
  (`PushPop.SingleWriteBackReachesBaseIff`).  The wrappers of the two test functions save and restore x30 that
  way, so they end by going to the eight bytes at their entry sp (`Wrappers.FibonacciWrapperRuns`), and the one of
  the summing function spoils the register that `str wzr` reads (`Wrappers.SumWrapperRuns`).
* MSR SPSR_EL1 reads SPSR_EL1; the level after ERET can be wrong after a context switch
  (`Exceptions.SwitchingBackLosesLevel`).
* A 32-bit load also reads the byte after its operand, so of the words in RAM exactly the last cannot be loaded
  (`VirtualMemory.WordLoadsIff`).
* The used ring sits one page after the descriptors, which is the legacy place only if descriptors and
  available ring share a page (`VirtioProperties.UsedRingIsLegacyIffOnePage`).
* The copy loop's 16-bit counter never reaches a length of 2^16 or more (`VirtioProperties.CopyLoopEndsIff`).
* A level-3 descriptor is a page whatever its bit 1 says (`Mmu.Level3AgreesIff`).
* A walk from level 0 with a valid descriptor ends the process, because the next table is looked for below RAM
  (`Mmu.Level0Walk`), unless the next table lies on device registers: then a register's value is taken for a
  descriptor, and the address can be mapped (`Mmu.Level0ThroughRegister`).  Those values are not described here.
* A 32-bit ANDS takes Z from the 64-bit result (`Meaning.AndsMeans`, `Meaning.AndsZeroWitness`).
* 32-bit operations on a shifted register shift all its 64 bits (`Shifts.NarrowShiftIff`); a 32-bit ORR keeps the
  high half of its destination, and copies all 64 bits when it is a plain move (`Effects.OrrMeans`).
* A 64-bit UBFM loses what lies above bit 31 (`Effects.WideUbfmMeans`).
* BLR through x30 goes to the next instruction, and RET through x0 returns to x30 (`ControlFlow.BlrMeans`,
  `ControlFlow.RetMeans`).
* The bus decodes a window of 1 GB but the loader maps 128 MB; an access between the two stops the model with
  `HostFault`.

## Model

| member | source | states |
|---|---|---|
| Util.ShiftIs | src/include/utils.h:47-49 | mask-then-shift extracts the field between two bit positions as a number |
| Util.SetLower32 | src/utils.cc:45-47 | the low half comes from the source operand and the high half stays the destination's |
| Util.SignExtendMeans | src/include/utils.h:33-35 | SIGN_EXTEND is the two's-complement value of the low bits, for every value and width |
| Util.SignExtensionsAgree | src/cpu.cc:194-196 | the processor's private sign extension and SIGN_EXTEND agree on every value that fits below the sign bit |
| Memory.GetPut | src/mem.cc:44-124 | reading back a store of any width gives the value modulo the width |
| Memory.GetPutDisjoint | src/mem.cc:44-124 | a store leaves every read of other bytes alone |
| Memory.Mem.Store64 | src/mem.cc:71-85 | eight byte assignments store the value little-endian and change nothing else |
| Memory.Mem.Load64 | src/mem.cc:114-124 | or-ing shifted bytes reads the little-endian number |
| Memory.Mem.Load32 | src/mem.cc:105-112 | although the fifth byte is read and a sign extended on the way, the result is the four-byte number |
| Bus.SystemBus.Load | src/bus.cc:21-52 | address decoding, width dispatch, and which accesses end the process |
| Bus.SystemBus.Store | src/bus.cc:54-87 | a store changes RAM or the device registers as decoded, or stops with the reason |
| Bus.LoadByAddress | src/bus.cc:21-52 | what a load does for every address, windows written out: RAM bytes lowest first, a stop on devices, past RAM and on addresses of nothing |
| Bus.StoreByAddress | src/bus.cc:54-87 | likewise for a store |
| Flags.AddImmS32IsAddWithCarry | src/cpu.cc:494-510 | 32-bit addition with flags is AddWithCarry on the low halves, for all operands and carries |
| Flags.Compare32 | src/cpu.cc:2038-2090 | after a 32-bit comparison every condition code holds exactly when its relation holds between the integers, and flipping its low bit negates it |
| Flags.Add32Flags | src/cpu.cc:494-510 | after ADDS carry and overflow are those of the unbounded unsigned and signed sums |
| Flags.AddImmS64Flags | src/cpu.cc:537-546 | 64-bit result, Z and V are AddWithCarry's for all operands; C is exactly when the unbounded sum stays below 3 * 2^63, N exactly when the top bit of the second operand is that of the wrapped sum, written out as bounds on the sum |
| Flags.Compare64 | src/cpu.cc:537-546 | for each of the 14 condition codes, the operands, by their unsigned or signed difference, for which a 64-bit comparison is decided correctly, and only those |
| Flags.Compare64Witness | src/cpu.cc:537-546 | two 64-bit comparisons that are decided wrongly |
| BitMasks.BitfieldReplicate | src/cpu.cc:612-618 | the doubling loop repeats the element through all 64 bits |
| BitMasks.DecodeBitMasks | src/cpu.cc:620-642 | the mask computed is wmask of DecodeBitMasks for every encoding that is not reserved |
| BitMasks.WMaskBit | src/cpu.cc:620-642 | bit i of wmask is set iff ((i mod e) + r) mod e <= s |
| BitMasks.LogicalImmBit | src/cpu.cc:680-707 | every result bit of AND, ORR, EOR and ANDS immediate is the operation on register bit and mask bit |
| BitMasks.ArmUbfm32Bit | src/cpu.cc:779-821 | the reference's bits: the rotated source under wmask and tmask |
| BitMasks.UbfmIsRotateAndMask | src/cpu.cc:779-821 | the 32-bit from/to/length extraction equals rotate-and-mask for every value and all immediates |
| Immediates.ExtendValueIsExtendReg | src/cpu.cc:136-179 | ExtendValue is ExtendReg for every value, shift and type except SXTH, also where the length is clipped |
| Immediates.SxthRightIffByte | src/cpu.cc:163-166 | for SXTH the result is right exactly for halfwords that fit in a signed byte |
| Immediates.MovKHalfword | src/cpu.cc:754-757 | MOVK changes its own halfword and no other |
| Immediates.ConstantBuilding | src/cpu.cc:747-759 | one MOVZ and three MOVKs in any order of positions build any 64-bit constant |
| Immediates.BranchOffsetIs | src/cpu.cc:2895-2906 | both sign extensions give four times the signed immediate |
| Immediates.BranchKeepsAlignment | src/cpu.cc:2986-2996 | taken branches go to pc plus the displacement modulo 2^64 and keep pc aligned |
| Immediates.ExactlyOneEncoding | src/cpu.cc:2107-2109 | every displacement in range is encoded by exactly one immediate |
| Isa.FieldIs | src/include/utils.h:47-49 | the decoder's division and remainder are what util::shift extracts from the instruction word |
| Isa.FlagIs | src/include/utils.h:51 | and its parity test is what util::bit extracts |
| Encodings.AddSubImmDecodes | src/cpu.cc:548-583 | the layout of ADD and SUB immediate decodes to its fields, through the whole dispatch |
| Encodings.LogicalImmDecodes | src/cpu.cc:644-669 | the same for logical immediates |
| Encodings.MoveWideDecodes | src/cpu.cc:717-745 | the same for wide moves |
| Encodings.UbfmDecodes | src/cpu.cc:766-790 | the same for UBFM |
| Encodings.PairDecodes | src/cpu.cc:837-937 | the same for register pairs in their three addressing forms |
| Encodings.SingleOffsetDecodes | src/cpu.cc:1176-1201 | the same for loads and stores with an unsigned offset |
| Encodings.SingleIndexedDecodes | src/cpu.cc:1176-1214 | the same for pre- and post-indexed loads and stores |
| Encodings.AddSubRegDecodes | src/cpu.cc:1577-1606 | the same for ADD and SUB of a shifted register |
| Encodings.OrrDecodes | src/cpu.cc:1688-1713 | the same for ORR of a shifted register |
| Encodings.BDecodes | src/cpu.cc:2876-2893 | the same for B and BL |
| Encodings.BCondDecodes | src/cpu.cc:2092-2106 | the same for conditional branches |
| Encodings.CompareBranchDecodes | src/cpu.cc:2909-2930 | the same for CBZ and CBNZ |
| Encodings.TestBranchDecodes | src/cpu.cc:2959-2984 | the same for TBZ and TBNZ |
| Encodings.BranchRegDecodes | src/cpu.cc:2789-2867 | the same for BR, BLR, RET and ERET |
| Encodings.SvcDecodes | src/cpu.cc:2181-2205 | the same for SVC |
| Encodings.SysMoveDecodes | src/cpu.cc:2497-2531 | the same for moves to and from SPSR_EL1, ELR_EL1 and SP_EL0 |
| Processor.Cpu.LogicalImm | src/cpu.cc:656-715 | the handler in place, with the mask from the decoding loop, leaves the state with the reference mask, or stops on the unallocated encodings |
| Processor.Cpu.CheckInterrupt | src/cpu.cc:28-53 | masking, disk before timer before serial line, and the disk request served on the way |
| Processor.Cpu.DecodeStart | src/cpu.cc:87-112 | through the handlers, which update registers, flags and memory in place, a word has the effect that decoding and executing it has |
| Emulator.Emulator.ExecuteTurn | src/emulator.cc:85-96 | count, check interrupts, fetch, stop on a zero word, execute |
| Emulator.Emulator.ExecuteLoop | src/emulator.cc:85-96 | the loop is the iteration of one turn, for any number of turns |
| Emulator.MaskedRunIsIteratedStep | src/emulator.cc:85-96 | with interrupts masked the loop is the iterated fetch-and-execute step and never touches the disk |
| Meaning.AddSubImmMeans | src/cpu.cc:585-605 | executing ADD or SUB immediate leaves the integer sum or difference modulo the width in register or sp |
| Effects.AddSubMeans | src/cpu.cc:565-606 | every ADD, ADDS, SUB and SUBS of an immediate, and of a shifted register (lines 1592-1634): the integer sum or difference modulo the width in register, sp or nowhere; NZCV is AddWithCarry on the low words, or the stated flags over the integers in 64 bits; nothing else changes |
| Shifts.ShiftIsArithmetic | src/cpu.cc:1611-1615 | LSL, LSR and ASR of a 64-bit word are multiplication and division by a power of two |
| Shifts.NarrowShiftIff | src/cpu.cc:1611-1615 | a 32-bit operation shifts all 64 bits: its operand is the 32-bit shift of the low word exactly when the bits that come in from the high word are zeros, or for ASR copies of bit 31 |
| Effects.AddSubRegStops | src/cpu.cc:1606-1609 | unallocated shifts end the process |
| Effects.OrrMeans | src/cpu.cc:1700-1763 | ORR and ORN of registers bit by bit, with the high half that a 32-bit one keeps |
| Effects.OrrStops | src/cpu.cc:1713-1730 | the other shift types end the process |
| Effects.MoveWideMeans | src/cpu.cc:731-764 | MOVN and MOVZ leave the complement or value of the shifted immediate modulo the width; MOVK replaces one halfword |
| Effects.MoveWideStops | src/cpu.cc:731-745 | unallocated wide moves end the process |
| Effects.LogicalImmStops | src/cpu.cc:671-674 | a 32-bit logical immediate with N set ends the process |
| Effects.WideUbfmMeans | src/cpu.cc:779-825 | a 64-bit UBFM leaves the low word of the reference, so it is right exactly when that is below 2^32 |
| Accesses.LoadMeans | src/cpu.cc:1176-1286 | LDR in all addressing forms and sizes, from register or sp: address, zero-extended value, write-back |
| Accesses.StoreMeans | src/cpu.cc:1176-1286 | STR likewise |
| Accesses.SingleStops | src/cpu.cc:1216-1226 | an access that does not complete stops the instruction |
| Accesses.LoadPairMeans | src/cpu.cc:902-967 | LDP in all addressing forms: both addresses, both registers in order, the base |
| Accesses.StorePairMeans | src/cpu.cc:902-967 | STP likewise |
| ControlFlow.ConditionalMeans | src/cpu.cc:2038-2130 | B.cond follows the architecture's ConditionHolds for all sixteen codes and all flags |
| ControlFlow.BrMeans | src/cpu.cc:2801-2812 | BR |
| ControlFlow.BlrMeans | src/cpu.cc:2813-2824 | BLR; through x30 it goes to the next instruction, because the link comes first |
| ControlFlow.RetMeans | src/cpu.cc:2825-2842 | RET; number 0 stands for x30, and a zero target ends the process |
| ControlFlow.SysMoveMeans | src/cpu.cc:2497-2531 | moves from and to SPSR_EL1, ELR_EL1 and SP_EL0 |
| ControlFlow.NothingDone | src/cpu.cc:376-420 | classes that are only logged move on, or stay |
| Meaning.CompareThenBranch | src/cpu.cc:2092-2118 | SUBS of 32-bit operands then B.cond branches exactly when the named relation holds between the operands as integers |
| Meaning.CompareThenBranch64 | src/cpu.cc:2092-2118 | SUBS of 64-bit operands then B.cond goes where the named relation says exactly for the operands of `Flags.Compare64` |
| Meaning.BranchMeans | src/cpu.cc:2887-2907 | executing B or BL goes to pc + 4 * signed(imm26) and links |
| Meaning.CompareBranchMeans | src/cpu.cc:2921-2958 | CBZ and CBNZ branch exactly on the register, or its low word, being zero |
| Meaning.TestBranchMeans | src/cpu.cc:2970-2997 | TBZ and TBNZ branch exactly on the parity of the register divided by the power of two |
| Meaning.LogicalImmMeans | src/cpu.cc:669-715 | every bit of what AND, ORR or EOR immediate leaves in register or sp, and nothing else changes |
| Meaning.AndsMeans | src/cpu.cc:669-715 | ANDS immediate: the value bit by bit, N its top bit, C and V clear, and Z right exactly when the operation is 64-bit, the low halves have a one in common, or the high halves have none |
| Meaning.AndsZeroWitness | src/cpu.cc:690-702 | a 32-bit ANDS with result zero that leaves Z clear |
| Meaning.UbfmMeans | src/cpu.cc:792-816 | executing a 32-bit UBFM leaves rotate-and-mask in the register |
| Meaning.ConstantLoads | src/cpu.cc:747-759 | executing MOVZ and three MOVKs in any order loads any 64-bit constant and changes only the register and pc |
| Fibonacci.FibonacciRuns | tests/data/fun_fibonacci.s:12-41 | for every n whose recursion fits in the stack: returns to x30 after an exact number of instructions with w0 = fib(n) mod 2^32; every other register, sp and all memory outside the stack used are as on entry |
| Emulator.FibonacciOnEmulator | src/emulator.cc:85-96 | the same for the emulator's main loop |
| Sum.TotalClosed | tests/data/fun_sum.s:19-30 | the loop's sum is n(n+1)/2 |
| Sum.Loop | tests/data/fun_sum.s:19-30 | from the loop test on, count turns add all counter values |
| Sum.SumRuns | tests/data/fun_sum.s:12-33 | below 2^31: exactly 10n + 12 instructions and w0 = x31 + n(n+1)/2 mod 2^32, where x31 is what register 31 of the array holds; otherwise 12 and w0 = x31 mod 2^32; right exactly when the low word of x31 is zero; sp restored, only w0, w1, flags and the 32-byte frame changed |
| Sum.RightIff | tests/data/fun_sum.s:12-33 | what the function computes from any register 31 is the triangular number exactly when the low word of that register is zero |
| Sum.AfterIndexedPush | tests/data/fun_sum.s:7-15 | from a register 31 of -32, which the wrapper leaves when it was zero, the sum is 32 too small for every argument |
| Emulator.SumOnEmulator | src/emulator.cc:85-96 | the same for the emulator's main loop |
| Wrappers.SumWrapperRuns | tests/data/fun_sum.s:6-33 | the wrapper, run around the function, computes the sum plus the register 31 it is entered with less 32, so the right one exactly when the low word of that register is 32, and then goes to the eight bytes at its entry sp, or ends the process if they are zero |
| Wrappers.FibonacciWrapperRuns | tests/data/fun_fibonacci.s:6-41 | the wrapper computes the Fibonacci number and goes to the eight bytes at its entry sp, whatever x30 was; register 31 and everything outside the stack used come back |
| Emulator.SumWrapperOnEmulator | src/emulator.cc:85-96 | the same for the emulator's main loop |
| Emulator.FibonacciWrapperOnEmulator | src/emulator.cc:85-96 | the same for the emulator's main loop |
| Mmu.WalkIsLeaf | src/mmu.cc:78-157 | the walk of shifts, masks and ors equals the map that picks descriptors, next tables and leaves by division and remainder |
| Mmu.TranslationIsLeaf | src/mmu.cc:159-194 | for walks from level 1, 2 or 3: the leaf base, aligned to its 2^30, 2^21 or 2^12 bytes, plus the offset in it, below 2^48, or 1 on an invalid descriptor, or the stop of a descriptor outside RAM |
| Mmu.TranslateByRegisters | src/mmu.cc:159-194 | translation from the values of SCTLR, TCR, TTBR0 and TTBR1: off, or the leaf in the tree of the half of the address, from the level that the address size selects |
| Mmu.IdentityIff | src/mmu.cc:170-172 | translation leaves every address alone exactly when bit 0 of SCTLR is clear |
| Mmu.SamePageTranslatesAlike | src/mmu.cc:78-194 | addresses of one page start at the same level and have the same leaf: both stop for the same reason, both fault, or both are displaced from one base, so a cache by page number would agree with the walk |
| Mmu.Level0Walk | src/mmu.cc:56-76 | with a valid level-0 descriptor, whose next-table field is 16 bits, the walk ends the process, unless the place of the next descriptor lies on device registers |
| Mmu.WalkOnRam | src/mmu.cc:78-157 | the walk over any answers to the bus's loads is the walk of this model when the answers are this model's |
| Mmu.Level0ThroughRegister | src/mmu.cc:56-90 | when the register at offset 8 of the serial port reads as 1, a level-0 descriptor maps a gigabyte through it |
| Mmu.Level3AgreesIff | src/mmu.cc:136-157 | a level-3 descriptor gives the architecture's result exactly when its bit 0 is clear or its bit 1 is set |
| VirtualMemory.TranslateFrame | src/mmu.cc:78-194 | a translation, and which descriptors it reads, depend only on those descriptors |
| VirtualMemory.AliasesSeeStore | src/cpu.cc:76-85 | every alias loads the stored value modulo the width, if the bytes written are not among the descriptors walked for it |
| VirtualMemory.LoadAfterStore | src/cpu.cc:76-85 | so does the address stored to |
| VirtualMemory.OthersKeepValue | src/cpu.cc:76-85 | after any store that goes to RAM, every address whose descriptors and target are clear of the write keeps its value, fault or halt |
| VirtualMemory.StoreIntoOwnDescriptor | src/mmu.cc:78-90 | the condition is needed: storing an even number into the first descriptor of its own walk makes the next load end the process |
| VirtualMemory.WordLoadsIff | src/mem.cc:105-112 | of the words that lie in RAM all can be stored, and exactly those followed by another byte can be loaded |
| PushPop.PushThenPop | src/cpu.cc:902-967 | STP by -k and LDP by +k on sp restore both registers and sp for every sp, k and contents, with translation on or off, and change nothing else |
| PushPop.SingleWriteBackReachesBaseIff | src/cpu.cc:1273-1274 | an indexed single store, or load into another register, moves its base exactly when the base is not sp or the offset is zero |
| PushPop.LoadIntoOwnBase | src/cpu.cc:1227-1274 | an indexed load into its own base leaves the sum of loaded value and offset |
| PushPop.IndexedStoreLeavesSp | src/cpu.cc:1216-1274 | a pre-indexed store with base sp writes the displaced address, leaves sp and moves register 31 by the displacement |
| PushPop.IndexedLoadLeavesSp | src/cpu.cc:1216-1274 | a post-indexed load with base sp reads at sp, leaves sp and moves register 31 by the displacement |
| PushPop.PushLrLeavesSp | tests/data/fun_fibonacci.s:7 | the same for the word of `str x30, [sp, #-64]!` |
| Exceptions.OtherInstructionsKeep | src/cpu.cc:2501-2504 | no modelled instruction but SVC and ERET changes the level, SPSR_EL1, SP_EL1 or VBAR_EL1 |
| Exceptions.StepIsMove | src/cpu.cc:2205-2218 | every executed instruction is one of the protocol's moves |
| Exceptions.EntryMeans | src/cpu.cc:55-68 | the whole state after a call or an interrupt (SVC: lines 2205-2218) from either level: vector, return address, SPSR_EL1, ESR_EL1 bit by bit, interrupt number, banked stack pointer |
| Exceptions.SvcMeans | src/cpu.cc:2205-2218 | an executed SVC leaves that state |
| Exceptions.EretMeans | src/cpu.cc:2855-2867 | the whole state after an executed ERET |
| Exceptions.LevelFollowsPc | src/cpu.cc:55-68 | in every properly nested run el = 0 exactly when pc bit 63 is clear |
| Exceptions.EveryReturnRestores | src/cpu.cc:2856-2863 | every return belongs to exactly one entry and restores its pc (after the call, for SVC), sp and level |
| Exceptions.EntryResumesKernelStack | src/cpu.cc:2210-2213 | an entry from the user resumes the kernel stack pointer at the last return before it |
| Exceptions.SpsrIsLastEntry | src/cpu.cc:2209-2216 | SPSR_EL1 always tells the level of the last entry |
| Exceptions.SwitchingReturnsRightIff | src/cpu.cc:2860-2863 | with context switches, every return ends at its target's level exactly when the target is the user's or the last entry came from the kernel; before the first entry the initial SPSR_EL1 stands for it |
| Exceptions.SwitchingBackLosesLevel | src/cpu.cc:2860-2863 | a run of two context switches that resumes a kernel thread at level 0 |
| Emulator.TurnIsMoves | src/emulator.cc:85-96 | from DAIF, notification, pc, count of turns and serial flag: a turn starts with no entry, or with the disk's work and interrupt 0x30, or with 0x1b or 0x21, and then makes one instruction; it counts itself, and only a request changes the disk |
| Emulator.TimerEntryIff | src/cpu.cc:41-45 | over any number of turns: an unmasked user turn without a notification starts with the timer interrupt exactly when the count of turns is a multiple of 100 |
| Emulator.DriverTurn | src/cpu.cc:28-40 | a request that a driver has laid out is served at the start of the turn that finds the notification |
| Emulator.StepByWord | src/emulator.cc:89-94 | a step executes the word at pc, and a zero word ends the loop |
| Emulator.TurnsAreMoves | src/emulator.cc:85-96 | so is any number of turns |
| Emulator.LoopReturnsRestore | src/emulator.cc:85-96 | in every run of the main loop whose software keeps to the protocol, each return gives back the pc, sp and level that one entry interrupted, every entry goes to the vector of its cause and level, and the level agrees with the program counter throughout |
| Virtio.Device.Update | src/virtio.cc:48-63 | recomputes the addresses of an existing queue and only those |
| Virtio.Device.Store | src/virtio.cc:123-189 | what each register store changes, and which addresses end the process |
| Virtio.Device.IsInterrupting | src/virtio.cc:65-71 | a pending notification is reported once |
| Virtio.Device.LoadRequest | src/virtio.cc:75-100 | the chain of three descriptors and the sector are those in memory |
| Virtio.Device.CopyToRam | src/virtio.cc:101-106 | the byte loop with its 16-bit counter copies the sector bytes to the buffer and nothing else |
| Virtio.Device.CopyToDisk | src/virtio.cc:107-113 | the byte loop copies the buffer to the sector bytes and nothing else |
| Virtio.Device.DiskAccess | src/virtio.cc:73-121 | RAM, disk and completion count after a request, in terms of those before it |
| LoopRequests.DriverServed | src/virtio.cc:73-121 | a chain laid out as bytes at addresses is served: a request whose data flags have bit 1 clear puts the buffer on the sector and one with it set the sector in the buffer, the status byte becomes 0, used entry and index follow, nothing else changes |
| DriverRequests.RequestIs | src/virtio.cc:75-100 | the request that the device reads from those bytes |
| VirtioProperties.DiskRoundTrip | src/virtio.cc:100-113 | writing a buffer to a sector and reading at most as much back gives the original bytes |
| RequestRuns.SectorStays | src/virtio.cc:100-113 | what a request has written to disk is found by every later one, until a request writes those bytes again |
| VirtioProperties.RequestFootprint | src/virtio.cc:100-121 | a request changes no other disk byte and no RAM outside buffer, status byte, used entry and used index |
| VirtioProperties.CopyLoopEndsIff | src/virtio.cc:103-112 | the counter, stepped as the loop steps it, reaches the length exactly when the length is below 2^16, and then after that many iterations |
| VirtioProperties.UsedRingHistory | src/virtio.cc:115-120 | after k completions the index is k mod 2^16 and the slots hold the heads of the last min(k, q) requests |
| VirtioProperties.LatestSlot | src/virtio.cc:115-120 | if q divides 2^16 the slot before the index is always the latest request's, across wrap-around |
| VirtioProperties.LayoutCacheStaysCurrent | src/virtio.cc:140-182 | after any sequence of register stores the addresses are those of the current registers |
| VirtioProperties.LastStoreWins | src/virtio.cc:123-189 | any sequence of register stores: which addresses end the process, each register holds the last value stored to its address, when a queue exists and where it lies |
| VirtioProperties.UsedRingIsLegacyIffOnePage | src/virtio.cc:48-57 | the layout is the aligned legacy one, and its parts are disjoint, exactly when 18q + 6 bytes fit in a page |
| LayoutRuns.LayoutCurrentInEveryRun | src/virtio.cc:140-182 | the same over every run of the whole machine, whatever program it executes |
| LoopRequests.LoopUsedRing | src/emulator.cc:85-96 | in every run of the main loop whose driver leaves queue and used ring alone, the used index is the number of requests served, modulo 2^16, and the slots hold the heads of the last q of them |
| LoopRequests.LoopRoundTrip | src/virtio.cc:100-113 | in every such run, a request that reads back a sector leaves in its buffer what the last request that wrote those bytes had in its own |

## Left out

- Processor.Cpu.constructor: registers the source leaves uninitialised start with any value; page-table and control registers except SCTLR_EL1 are set to zero.
- Virtio.Device.DiskAccess: requires that queue, descriptors, buffer, sector and used ring lie in RAM and disk and that the length is below 2^16; outside that the code reads or writes beyond its buffers or never ends. The check_interrupt model stops there instead.
- Virtio.Device.LoadRequest: takes the head where the code reads it (32 bytes into the available ring, at an index that never advances) and claims nothing about the standard's available ring.
- Fibonacci.FibonacciRuns: assumes translation off, as at start-up, a non-zero return address, and a stack below the last byte of RAM, because a 32-bit load reads one byte further.
- Bus.SystemBus.Load: a load from a device register stops the model.
- Bus.SystemBus.Store: only stores to RAM and to the block device's registers are described; those to the interrupt controller and the serial port stop the model.
- Processor.Cpu.CheckInterrupt: the serial line is an observed flag, and a disk request that cannot be served stops the model.
- Processor.Cpu.DecodeStart: a word outside the modelled instructions stops the model; of the handlers that are described, the register form of the logical ones covers ORR and ORN, the bitfield one UBFM, and the single loads the unsigned ones.  Loads and stores stop where the bus does.
- LoopRequests.LoopUsedRing: the driver is asked to leave the queue registers and the used ring alone from one request to the next, and to keep buffers and status bytes out of the used ring; the device guards against neither.
- Mmu.TranslationIsLeaf: says nothing about an address size below 12, where the source returns an uninitialised value; descriptors outside RAM stop the walk, also those on device registers, which the code would read. The thresholds that choose the start level are the code's, not compared with the Arm rules.
- Exceptions.NestedRun: software between moves is any change that keeps level, SPSR_EL1, SP_EL1 and VBAR_EL1 and stays in its half of the address space; the handler is assumed to reinstate ELR_EL1 and the stack pointers.
- Memory.Mem: the guest address of the first byte is fixed to 0x40000000, where the linker script places the kernel; the source subtracts the start of the loaded text.
- Isa.Decode: handlers are methods over a decoded instruction; the field extraction of each handler is a function, proved to invert the layouts.
- Isa.Exec: ADR, ADRP, BFM, SBFM, AND, EOR and ANDS of registers, extended registers, conditional select and compare, multiplication, division, signed and register-offset loads, literals, exclusives, ordered accesses, HVC, barriers, DAIF and the other system registers are not described and stop with `Unmodelled`.
- Listings: the machine words are the A64 encodings of the assembly text; the assembler is not part of this model.
- The serial port's input is a flag per turn; ELF loading, the input thread, logging and reading the disk image are host code.
- The main loop runs for a given number of turns, since the source's loop has no end of its own but a zero word.
