# Model of the iMX53 board simulator and the ArchC binary tools

The repository simulates an iMX53 board (ARM core, MMU, SD card, SD host controller, timers) on SystemC, and
brings ArchC's relocation converter, its generators for assembler back-ends, and the acstone test programs.
This project models the parts with the most state and arithmetic and proves what they are for.

| files | what they model |
|---|---|
| `SdCards.dfy`, `Esdhcs.dfy`, `SdTransfers.dfy`, `SdReads.dfy`, `SdSingleReads.dfy`, `SdSignals.dfy` | the SD card's state machine, the host controller, the multi-block read as a protocol between card thread, host thread and processor in any interleaving, sequences of such reads, the single-block read, and what the host tells the driver |
| `ArmAlu.dfy`, `ArmCores.dfy`, `ArmInstructions.dfy`, `ArmEffects.dfy` | adder, flags and conditions; banked registers, status words and exception entry; the instructions on them; and what each of these comes to in numbers |
| `ArmExceptions.dfy`, `ArmHandlers.dfy` | nested exceptions and their returns, and handlers made of instructions |
| `ArmBlocks.dfy`, `ArmPrograms.dfy` | load and store multiple; runs of instructions from User mode |
| `Mmus.dfy`, `Tlbs.dfy` | the two-level table walk, and the direct-mapped TLB with the path that uses it |
| `HashTables.dfy`, `MapFiles.dfy`, `Relocations.dfy`, `Conversions.dfy` | the relocation converter's chained hash table, map-file parser, in-place patching with its reverse mode, and whole runs of it on a section |
| `Encoders.dfy` | field insertion and extraction as the generated assembler code performs them |
| `Multipliers.dfy`, `Gpts.dfy` | Booth and shift-add multiplication; the general purpose timer |
| `Words.dfy`, `BitWords.dfy` | machine words as bounded integers, and as bit strings |

Where the program changes state in place, so does the model: a class with the program's fields, arrays and heap
nodes, and loops with invariants. Each such method is proved to compute a function of the old state, and the
theorems are about those functions. Code that would exit, abort or run outside a buffer becomes an outcome
(`Stopped`, `Exits`, `Aborted`), not a precondition.

## Main results

* SD read (`SdTransfers`): in every interleaving of card clock, host clock and port reads after CMD18, the bytes
  delivered, buffered and on the line are exactly the blocks read so far, in order. Completion is signalled only
  when the whole range has been delivered, nothing past the range is fetched, and every fair run completes within
  `count * (len + 3) + 2` rounds. Any sequence of such reads delivers its ranges
  in order, whatever the threads do between the register writes (`SdReads`). Data is announced exactly when the
  watermark is reached (`SdSignals`).
* Instructions (`ArmEffects`): exception entry, data processing, moves, comparisons and branches are pinned by tables of
  results, flags, registers and addresses that do not use the functions they are about.
* Exceptions (`ArmExceptions`, `ArmHandlers`): in runs of exceptions nested to any depth, whose steps leave LR and
  SPSR of the open frames alone, every handler ends with its link, and every return restores PC, mode and CPSR.
  Once IRQs are disabled, none is taken at any depth unless some step enables them. Handlers made of instructions
  that do not write such a link qualify. A handler that stores LR, uses it, and loads it back returns as well.
* User mode (`ArmPrograms`): no run of non-exception instructions leaves User mode, changes the interrupt masks, or
  touches a banked register or saved status.
* STM and LDM (`ArmBlocks`): the opposite write-back mode restores all listed registers and the base, for all four
  pairs of modes and all bases, also across the address wrap.
* Address translation (`Mmus`, `Tlbs`): an address is translated as section B3.5 of ARM DDI 0406C says, for all
  tables, if and only if TTBR1's stray bits do no harm to it; the TLB is transparent over whole runs of accesses.
* Relocations (`MapFiles`, `Relocations`): the parser accepts exactly the files whose lines are blank, comments or
  assignments; reverse mode restores every section if and only if each mapped code leads back to itself, so a
  file converted and converted back with a map of distinct codes is as it was (`Conversions`). A successful run
  replaces exactly the type codes of the section's entries.
* Arithmetic (`Multipliers`, `ArmAlu`, `Gpts`): exact products, exact multiword addition, exact counter values and
  event counts after any number of cycles.

## Where the code departs from what it implements

The model follows the code. Each departure is either part of an exact condition below or stated in a contract.

* SUB, CMP and RSB compute V from the negated operand, and SBC and RSC ignore the incoming borrow in C
  (`ArmAlu.SubMatchesIff`, `ArmAlu.SbcMatchesIff`); so after a comparison with 0x80000000 GE and LT are always
  wrong, and GT and LE are wrong unless both operands are 0x80000000 (`ArmAlu.SignedConditionsIff`).
* `MOVS pc, lr` restores CPSR and then overwrites N, Z and C (`ArmExceptions.MovReturnExactIff`).
* FIQ enters at the data-abort vector (`ArmCores.VectorMatchesIff`); CMP and the logical operations read a PC
  operand four bytes early (`ArmInstructions.PcOperandMatchesIff`).
* CLZ with a PC operand returns from the exception first, and may then write LR of the mode it returned to
  (`ArmHandlers.OtherLinksKeptIff`).
* TTBR1 is masked as if it were TTBR0 (`Mmus.TranslationMatchesIff`, `Mmus.StrayBitMistranslates`); a first-level fault yields physical
  address zero, or the page offset when the TLB is in use (`Tlbs.OffsetHarmlessIff`).
* `flush_all` clears one cell (`Tlbs.FlushAllEmptiesIff`).
* Booth's loop treats a multiplicand of 0x80000000 as +2^31 (`Multipliers.BoothExactIff`).
* A timer prescaler above 4096 never ticks (`Gpts.LargePrescalerNeverTicks`).
* An SD block count of zero stands for 65536 blocks (`SdTransfers.BlockCount`).

## Model

| member | source | states |
|---|---|---|
| SdCards.SdCard.constructor | armv7/src/sd.cpp:46-74 | a new card is idle with an idle line, no address and not selected; the block length is left undefined |
| SdCards.SdCard.ExecStateData | armv7/src/sd.cpp:167-185 | puts exactly block `current_block` on an idle line, leaves a busy line alone, and returns to TRAN after a single block; stops when the block does not fit the line or the image |
| SdCards.SdCard.PrcSdcard | armv7/src/sd.cpp:133-164 | one clock cycle: only DATA moves data, RCV and PRG stop the simulator |
| SdCards.SdCard.ReadDataline | armv7/src/sd.cpp:189-201 | appends the line's block to the buffer and clears the line; an idle line changes nothing |
| SdCards.SdCard.SelectCard | armv7/src/sd.cpp:379-424 | CMD7: selects on a matching non-zero address, otherwise deselects, with the state changes of both |
| SdCards.SdCard.ExecCmd | armv7/src/sd.cpp:204-268 | every command's whole effect on the card, including the one-shot application flag and unknown commands |
| SdCards.ActKeepsInvariant | armv7/src/sd.cpp:204-593 | no clock cycle, command or line read leaves the states IDLE, READY, IDENT, STBY, TRAN and DATA; STBY, TRAN and DATA imply rca = 1, TRAN and DATA imply a selected card |
| SdCards.StatesOverRuns | armv7/src/sd.cpp:145-161 | the same over every run from power-on; the dispatcher's exit arm is dead, a cycle is stopped only by a block that does not fit |
| SdCards.IdentificationOrder | armv7/src/sd.cpp:287-424 | a card that is in DATA or TRAN went through ACMD41, CMD2, CMD3 and CMD7 in this order |
| SdCards.CommandDiagram | armv7/src/sd.cpp:270-616 | the state that each command leads to, by the state diagram; the block and kind that a read notes; address, selection and the application flag |
| SdCards.StandardLine | armv7/src/sd.cpp:270-593 | what commands do to the data line and the block length; all else keeps them |
| Esdhcs.Esdhc.RunSdProtocol | armv7/src/esdhcv2.cpp:105-145 | fetches a waiting block into the buffer in the read state; a write state stops the simulator |
| Esdhcs.Esdhc.CountFetchedBlock | armv7/src/esdhcv2.cpp:116-137 | counts the block in 16 bits; after the last one stops the card by CMD12, restores BLKCNT and ends the read |
| Esdhcs.Esdhc.RunHostProtocol | armv7/src/esdhcv2.cpp:147-166 | announces data at the watermark, and completion once the buffer of a finished read is empty |
| Esdhcs.Esdhc.PrcEsdhc | armv7/src/esdhcv2.cpp:84-103 | one clock cycle: card side, then processor side, nothing when idle |
| Esdhcs.Esdhc.WriteCommand | armv7/src/esdhcv2.cpp:458-477 | the command register: latches a command unless one is inhibited, and executes it |
| Esdhcs.Esdhc.ExecuteDataPhase | armv7/src/esdhcv2.cpp:182-199 | starts a read transfer, stops on a write, then signals command complete |
| Esdhcs.Esdhc.UpdateState | armv7/src/esdhcv2.cpp:227-266 | the present-state bits that go with each state; a write state stops the simulator |
| Esdhcs.Esdhc.GenerateSignal | armv7/src/esdhcv2.cpp:201-215 | a status bit is raised exactly if its enable bit is set |
| Esdhcs.Esdhc.ReadDatport | armv7/src/esdhcv2.cpp:423-433 | pops up to four bytes; the word read is their little-endian value |
| SdTransfers.CommandStartsTransfer | armv7/src/sd.cpp:561-575 | CMD18 from any idle configuration establishes the transfer invariant |
| SdTransfers.TransferKeepsInvariant | armv7/src/esdhcv2.cpp:105-166 | in every interleaving nothing stops, and delivered ++ buffered ++ on the line are the blocks read so far |
| SdTransfers.CompletionDeliversRange | armv7/src/esdhcv2.cpp:117-132 | in every interleaving a prefix of the range is delivered and no block past it is loaded; when the host is done it is the whole range, the card is in TRAN with an idle line, current_block = first + count, and BLKCNT is restored |
| SdTransfers.CompletionInterrupt | armv7/src/esdhcv2.cpp:159-164 | transfer-complete is up only after exactly the range was delivered, and then always unless disabled |
| SdTransfers.PortReadsWholeWords | armv7/src/esdhcv2.cpp:423-433 | with block lengths divisible by four every read of a non-empty buffer takes the next four bytes, low byte first |
| SdTransfers.StepProgress | armv7/src/esdhcv2.cpp:84-103 | every step lowers the measure or changes no data; the useful step of an unfinished transfer lowers it |
| SdTransfers.FairRunsComplete | armv7/src/esdhcv2.cpp:159-164 | in every run of count * (len + 3) + 2 rounds that give each party a turn, the transfer completes with exactly the range delivered |
| SdTransfers.RangeInBytes | armv7/src/sd.cpp:178 | the range is image[first * len .. (first + count) * len) |
| SdReads.PauseKeeps | armv7/src/esdhcv2.cpp:84-166 | any steps of the threads keep a quiet system quiet, its card and programmed registers as they are, and a ready one ready |
| SdReads.ProgrammedIsReady | armv7/src/esdhcv2.cpp:453-477 | from a quiet system, writing block length, count and argument makes any valid request ready for CMD18, with any thread steps and port reads before each write |
| SdReads.FinishedIsQuiet | armv7/src/esdhcv2.cpp:159-164 | a finished transfer leaves a quiet system |
| SdReads.ReadDelivers | armv7/src/esdhcv2.cpp:84-166 | one read, from register writes to its end, delivers its range and leaves a quiet system |
| SdReads.ReadsDeliverRanges | armv7/src/esdhcv2.cpp:84-166 | any sequence of reads, of any lengths and places and with any pauses, delivers exactly their ranges, in order |
| SdSingleReads.SingleReadDelivers | armv7/src/sd.cpp:543-559 | CMD17 in every interleaving: prefixes of one block, and when the host is done exactly that block, with the card in TRAN and the line idle |
| SdSingleReads.WantedInBytes | armv7/src/sd.cpp:178 | the block is image[first * len .. first * len + len) |
| SdSingleReads.RegistersOnTheLine | armv7/src/sd.cpp:355-375 | SWITCH in mode 0 is answered by 64 zero bytes, ACMD51 by the eight bytes of the configuration register |
| SdSingleReads.BlockLengthSet | armv7/src/sd.cpp:515-539 | CMD16 sets lengths up to 4098 in TRAN, stops on more, and is ignored elsewhere |
| SdSignals.DataAnnounced | armv7/src/esdhcv2.cpp:150-157 | BREN and, if enabled, BRR rise in a clock cycle exactly if the buffer then holds the watermark's number of bytes |
| SdSignals.AnnouncedDataIsThere | armv7/src/esdhcv2.cpp:150-157 | in every interleaving, while BREN is up the buffer holds at least the watermark, and BRR comes only after so many bytes |
| SdSignals.WaitingDataIsAnnounced | armv7/src/esdhcv2.cpp:150-157 | and no clock cycle leaves so many bytes unannounced |
| SdSignals.PortReadTakesBack | armv7/src/esdhcv2.cpp:423-433 | a port read clears BREN and takes the first four bytes or what there is |
| SdSignals.PortWord | armv7/src/esdhcv2.cpp:426-430 | four bytes make the word a + 2^8 b + 2^16 c + 2^24 d |
| SdSignals.ActiveBitsKept | armv7/src/esdhcv2.cpp:227-250 | data line active, read transfer active and data inhibit are set exactly during a read |
| SdSignals.CommandExecuted | armv7/src/esdhcv2.cpp:458-477 | a command goes to the card with its index and argument, signals command complete if enabled, and begins a read if it asks for data |
| SdSignals.UncountedFetch | armv7/src/esdhcv2.cpp:114-137 | a fetched block ends a single-block read and not an uncounted one |
| ArmAlu.AdcIsAddWithCarry | armv7/src/arm_isa.cpp:1203-1233 | ADC's result and four flags are AddWithCarry's for all operands |
| ArmAlu.SubMatchesIff | armv7/src/arm_isa.cpp:2649-2688 | SUB is AddWithCarry(a, NOT b, 1) except for V, which is right if and only if b is not 0x80000000 |
| ArmAlu.SbcMatchesIff | armv7/src/arm_isa.cpp:2370-2405 | SBC's result is right; C is right if and only if carry-in is set or the operands differ; V if and only if carry-in is clear or b is not 0x80000000 |
| ArmAlu.UnsignedConditions | armv7/src/arm_isa.cpp:422-439 | after a comparison EQ, NE, HS, LO, HI, LS are the unsigned relations for all operands |
| ArmAlu.SignedConditions | armv7/src/arm_isa.cpp:422-439 | for all operands, when GE, LT, GT and LE execute: by the signed relation against operands other than 0x80000000, against which LT and LE always and GE and GT never do |
| ArmAlu.SignedConditionsIff | armv7/src/arm_isa.cpp:422-439 | GE and LT are the signed relations if and only if the second operand is not 0x80000000, GT and LE if and only if it is not or both are |
| ArmAlu.AdcChainAdds | armv7/src/arm_isa.cpp:1203-1233 | limb-wise ADC of numbers of any length is exact addition: result and last carry make up the sum |
| ArmAlu.AdcChainOverflow | armv7/src/arm_isa.cpp:1203-1233 | V of the last limb is set exactly when the signed multiword sum does not fit |
| ArmCores.Cpu.BypassRead | armv7/src/arm_isa.cpp:192-258 | reads the register that the current mode sees under a number |
| ArmCores.Cpu.BypassWrite | armv7/src/arm_isa.cpp:115-190 | writes that register and no other |
| ArmCores.RegistersAreVariables | armv7/src/arm_isa.cpp:115-258 | in every known mode the sixteen numbers name sixteen registers of their own |
| ArmCores.WriteSeenFromMode | armv7/src/arm_isa.cpp:115-258 | another mode sees a write exactly when the register is not banked between the two modes |
| ArmCores.PsrsAreWords | armv7/src/arm_isa.cpp:297-339 | status words by fields correspond one to one with 32-bit words, at the bit positions of CPSRBuild and writeCPSR |
| ArmCores.Cpu.WriteStatus | armv7/src/arm_isa.cpp:326-339 | writeCPSR: flags, masks and mode are taken from the word, `thumb` is not written |
| ArmCores.Cpu.SavedToStatus | armv7/src/arm_isa.cpp:343-364 | the mode's SPSR becomes CPSR; nothing in modes without one |
| ArmCores.Cpu.WriteSaved | armv7/src/arm_isa.cpp:365-383 | writes the mode's SPSR; nothing in modes without one |
| ArmCores.Cpu.ServiceInterrupt | armv7/src/arm_interrupts.cpp:20-116 | exception entry: masks, saved LR and SPSR, mode, vector, and the mask bits set, for all seven exceptions |
| ArmCores.EntryMasksIrq | armv7/src/arm_interrupts.cpp:24-30 | a taken entry sets I, clears T, enters the handler's mode and touches no other mode's bank; a masked IRQ or FIQ changes nothing |
| ArmCores.VectorMatchesIff | armv7/src/arm_interrupts.cpp:96-107 | an exception enters at the vector of section B1.8.1 of ARM DDI 0406C if and only if it is not FIQ |
| ArmEffects.EntryJumps | armv7/src/arm_interrupts.cpp:40-107 | every taken exception goes to the base plus 0, 4, 8, 0xC, 0x10, 0x18, and FIQ to 0x10 |
| ArmEffects.EntrySaves | armv7/src/arm_interrupts.cpp:40-107 | LR and SPSR of the exception's bank hold the next address, or four more for data abort, IRQ and FIQ, and CPSR; zero for reset; every other register stays |
| ArmEffects.EntrySwitches | armv7/src/arm_interrupts.cpp:44-115 | mode numbers, I set, F set by reset and FIQ and kept otherwise, ARM state, and the flags kept |
| ArmEffects.MaskedEntryDoesNothing | armv7/src/arm_interrupts.cpp:24-30 | FIQ and IRQ that are disabled change nothing |
| ArmEffects.ModeNumbers | armv7/src/arm_interrupts.cpp:118-130 | the numbers of the known modes, of the privileged ones, and of those with a saved status |
| ArmEffects.StatusWordLayout | armv7/src/arm_isa.cpp:297-339 | the place of every field in a status word |
| ArmEffects.CpsrLayout | armv7/src/arm_isa.cpp:297-324 | CPSR as read: flags in bits 31 to 27, disable bits in 7 and 6, state in 5, mode below |
| ArmEffects.CpsrWritten | armv7/src/arm_isa.cpp:326-339 | CPSR as written: the same places, and no other part of the core changes |
| ArmInstructions.RunBegin | armv7/src/arm_isa.cpp:415-451 | the condition decides annulment, and the PC moves on either way |
| ArmInstructions.RunConclude | armv7/src/arm_isa.cpp:2668-2687 | the end shared by the data-processing instructions: status return with S and Rd = PC, stopping short in User and System mode, flags otherwise |
| ArmInstructions.RunDataProcess | armv7/src/arm_isa.cpp:1236-1270 | ADD and its siblings: operand, result, register, flags; ADC alone does not return from exceptions |
| ArmEffects.DataProcessingEffect | armv7/src/arm_isa.cpp:1203-2405 | each of the ten operations on a register other than the PC: its sum, difference or bits, with S its flags as the architecture's up to the exact conditions, the next address, and every other register kept |
| ArmEffects.JumpEffect | armv7/src/arm_isa.cpp:1236-1270 | the same with the PC as destination: the jump, the status return, and the early stop of User and System mode and of ADC |
| ArmEffects.CompareEffect | armv7/src/arm_isa.cpp:1584-1630 | CMP, CMN, TST and TEQ set the flags of SUB, ADD, AND and EOR and write no register |
| ArmEffects.MoveEffect | armv7/src/arm_isa.cpp:2017-2043 | MOV and MVN to a register: value, flags, and nothing else |
| ArmEffects.MoveToPcEffect | armv7/src/arm_isa.cpp:2022-2042 | MOV to the PC: jump, status return with the move's N, Z and C, or nothing in User and System mode |
| ArmEffects.OtherPcEffects | armv7/src/arm_isa.cpp:1549-1581 | MVN to the PC jumps to the complement; CLZ with the PC does nothing in User and System mode |
| ArmEffects.BranchEffect | armv7/src/arm_isa.cpp:1307-1340 | B and BL: own address plus 8 plus four times the signed offset, and the return address in LR |
| ArmEffects.CountZerosEffect | armv7/src/arm_isa.cpp:1549-1581 | CLZ into a register |
| ArmEffects.AnnulledStep | armv7/src/arm_isa.cpp:441-450 | an instruction whose condition fails only moves the PC on |
| ArmEffects.AddedConditions | armv7/src/arm_isa.cpp:422-439 | after ADDS: MI and PL, CS and CC, VS and VC by sign, unsigned and signed overflow; 14 always, 15 never |
| ArmInstructions.BitwiseIsBitByBit | armv7/src/arm_isa.cpp:1274-1282 | every bit of AND, EOR, ORR and BIC is that operation on the operands' bits |
| ArmInstructions.RunMove | armv7/src/arm_isa.cpp:2017-2043 | MOV, with N, Z and C overwritten after a status return |
| ArmInstructions.RunMoveToStatus | armv7/src/arm_isa.cpp:3262-3374 | MSR in its register and immediate forms: the masked bytes, and only the flags byte of CPSR without privilege |
| ArmEffects.SavedStatusBytes | armv7/src/arm_isa.cpp:3295-3315 | MSR to SPSR takes each byte from the operand exactly if its mask bit is set |
| ArmEffects.CpsrFlagsWritten | armv7/src/arm_isa.cpp:3284-3288 | MSR to CPSR takes the flags from the operand's top byte exactly if that is selected |
| ArmEffects.StatusReadInto | armv7/src/arm_isa.cpp:2123-2156 | MRS reads CPSR in all modes, and SPSR only with privilege |
| ArmInstructions.LeadingZeros | armv7/src/arm_isa.cpp:1570-1575 | CLZ is 32 for zero and otherwise the r with 2^(31-r) <= x < 2^(32-r) |
| ArmInstructions.CountLeadingZeros | armv7/src/arm_isa.cpp:1570-1575 | the loop from bit 31 down finds that number |
| ArmInstructions.SavedStatusReadBack | armv7/src/arm_isa.cpp:3295-3315 | MSR to SPSR then MRS reads the old word with exactly the selected bytes replaced |
| ArmInstructions.StatusWrittenBack | armv7/src/arm_isa.cpp:3266-3288 | writing back a CPSR that was read changes nothing in a privileged mode |
| ArmInstructions.PcOperandMatchesIff | armv7/src/arm_isa.cpp:1211-1212 | a PC operand is the instruction's address plus 8, as in the architecture, exactly for the arithmetic operations |
| ArmInstructions.ComparisonDecides | armv7/src/arm_isa.cpp:1608-1630 | after CMP the next instruction is annulled or not by the relation of the operands |
| ArmExceptions.ReturnEffect | armv7/src/arm_isa.cpp:2649-2688 | SUBS pc, lr, #k in a handler jumps to LR - k and makes SPSR the CPSR |
| ArmExceptions.ReturnUndoesEntry | armv7/src/arm_isa.cpp:343-364 | with the frame in place the return restores PC, mode, masks and CPSR, and keeps all banks |
| ArmExceptions.RunKeepsLinks | armv7/src/arm_interrupts.cpp:44-110 | a well bracketed run keeps LR and SPSR of every mode with an open frame below the current one |
| ArmExceptions.BracketedHandlerReturns | armv7/src/arm_interrupts.cpp:20-116 | a handler that ends with its link returns to the interrupted PC, mode and CPSR, and the links of the frames below survive its whole run |
| ArmExceptions.NestedIsBracketed | armv7/src/arm_interrupts.cpp:20-116 | if every step, at every depth, leaves the links of open frames alone, every handler ends with its link |
| ArmExceptions.HandledExceptionReturns | armv7/src/arm_interrupts.cpp:20-116 | so one handled exception, with any nesting inside, comes back to the interrupted PC, mode and CPSR |
| ArmExceptions.ExceptionsRestoreState | armv7/src/arm_interrupts.cpp:20-116 | and a whole run of exceptions ends with the original PC, mode, N, Z, C, V, Q, T, I and F |
| ArmExceptions.NestedRunExists | armv7/src/arm_interrupts.cpp:64-85 | an abort inside a supervisor call is such a run, from every known mode |
| ArmExceptions.NoIrqWhileDisabled | armv7/src/arm_interrupts.cpp:28-30 | with IRQs disabled and no step enabling them, no IRQ is taken at any depth |
| ArmExceptions.HandlersRunWithoutIrq | armv7/src/arm_interrupts.cpp:112-113 | so a handler that does not enable IRQs is not interrupted by one |
| ArmExceptions.MovReturnExactIff | armv7/src/arm_isa.cpp:2024-2037 | MOVS pc, lr restores PC and mode, and CPSR if and only if N and Z describe the return address and C is the handler's |
| ArmExceptions.MovReturnLosesZero | armv7/src/arm_isa.cpp:2024-2037 | a concrete return that loses Z |
| ArmHandlers.StepSpares | armv7/src/arm_isa.cpp:115-258 | an instruction keeps LR and SPSR of every mode but the current one, unless it is CLZ lr, pc, and of the current one if it writes neither |
| ArmHandlers.ReturnedLinkIsWritten | armv7/src/arm_isa.cpp:1557-1577 | CLZ lr, pc in an abort handler overwrites LR of the supervisor call it interrupted |
| ArmHandlers.OtherLinksKeptIff | armv7/src/arm_isa.cpp:115-258 | an instruction keeps the links of all other modes in every state if and only if it is not CLZ lr, pc |
| ArmHandlers.PerformSpares | armv7/src/arm_isa.cpp:1087-1135 | so do load and store multiple and all other commands, and they keep the current mode's link if they do not write it |
| ArmHandlers.StoredLinkComesBack | armv7/src/arm_isa.cpp:1672-1725 | LR stored by STM comes back by the opposite LDM, whatever it was used for between |
| ArmHandlers.SavedLinkComesBack | armv7/src/arm_isa.cpp:2484-2519 | the same for the two whole instructions |
| ArmHandlers.ScriptsAreBracketed | armv7/src/arm_interrupts.cpp:20-116 | handlers made of commands that spare the links of other frames, and of exceptions handled so, run well bracketed |
| ArmHandlers.InstructionHandlerReturns | armv7/src/arm_interrupts.cpp:20-116 | such a handler that ends in its mode with its link returns, and the links of the other frames survive |
| ArmHandlers.SparingIsNested | armv7/src/arm_isa.cpp:115-258 | scripts whose commands write no link of an open frame are runs that leave all links alone |
| ArmHandlers.SparingHandlerReturns | armv7/src/arm_interrupts.cpp:20-116 | so a handler whose commands, and those of all handlers nested in it, write no link of an open frame returns to the interrupted PC, mode and CPSR |
| ArmHandlers.SavingHandlerReturns | armv7/src/arm_isa.cpp:2484-2519 | entry, STM with LR, any script that keeps mode, SPSR, base and block, the opposite LDM, and return: PC, mode and CPSR are back |
| ArmBlocks.CountSetBits | armv7/src/arm_isa.cpp:287-295 | counts the listed registers |
| ArmBlocks.RunPrepare | armv7/src/arm_isa.cpp:1087-1135 | start address and written-back base of the four modes; empty lists and a listed written-back base annul |
| ArmBlocks.BlockSpansCount | armv7/src/arm_isa.cpp:1106-1125 | in all four modes the last of count words from the start address is at the end address |
| ArmBlocks.BlockAddresses | armv7/src/arm_isa.cpp:1106-1125 | start, end and new base of the four modes as sums modulo 2^32 |
| ArmBlocks.BlockOutcomes | armv7/src/arm_isa.cpp:1095-1132 | both instructions are annulled exactly by an empty list or a listed written-back base, and end the simulation exactly in the user form without privilege |
| ArmBlocks.WordsAreLittleEndian | armv7/src/ram.cpp:58-65 | the four bytes of a word, low byte first |
| ArmBlocks.OppositeFindsBlock | armv7/src/arm_isa.cpp:1106-1125 | from the written-back base the opposite mode finds the same block and the old base |
| ArmBlocks.RunStoreMultiple | armv7/src/arm_isa.cpp:2484-2519 | STM in both forms, as the loop runs it |
| ArmBlocks.RunLoadMultiple | armv7/src/arm_isa.cpp:1672-1725 | LDM in all three forms, as the loops run it |
| ArmBlocks.StoreWritesBlock | armv7/src/arm_isa.cpp:2484-2519 | the listed registers stand in ascending order in consecutive words, the last at the end address, and every other byte is unchanged |
| ArmBlocks.LoadedRegisters | armv7/src/arm_isa.cpp:1672-1725 | each listed register gets the word of its rank, the PC without bit 0, and unlisted registers keep their values |
| ArmBlocks.LoadReadsBlock | armv7/src/arm_isa.cpp:1672-1725 | each listed register gets its word of the block, the PC without bit 0; the base gets its new value, and all others stay |
| ArmBlocks.UserFormsUseCommonBank | armv7/src/arm_isa.cpp:1700-1715 | the user forms store and load the common register bank in every mode |
| ArmBlocks.UserLoadOfPcReturns | armv7/src/arm_isa.cpp:1716-1725 | LDM with the PC in its user form makes the mode's saved status CPSR and jumps to the block's last word |
| ArmBlocks.StoreThenLoad | armv7/src/arm_isa.cpp:1106-1134 | STM then LDM in the opposite write-back mode restores all listed registers and the base, for all bases and lists, whatever happened between to anything but the base and the block |
| ArmBlocks.WrittenWordReadBack | armv7/src/ram.cpp:47-63 | a written word is read back at any alignment |
| ArmPrograms.StatusWrite | armv7/src/arm_isa.cpp:3268-3288 | MSR to CPSR sets mode and masks exactly in privileged modes with the control byte selected |
| ArmPrograms.UserPerforms | armv7/src/arm_interrupts.cpp:118-130 | one instruction in User mode keeps mode, masks, banks and saved statuses, whether modelled in full or as any effect on registers, flags, PC and memory; only user-form LDM and STM end the simulation |
| ArmPrograms.UserProgramsStayUnprivileged | armv7/src/arm_isa.cpp:326-399 | the same for programs of any length |
| Mmus.SetMaskBits | armv7/src/mmu.cpp:193-194 | the loop sets exactly the bits of its range |
| Mmus.TtbAddress | armv7/src/mmu.cpp:55-94 | the table register chosen by the top N bits, and its masked base |
| Mmus.L1Translate | armv7/src/mmu.cpp:160-239 | the walk: pages, sections, exits, and address zero on a fault |
| Mmus.L2Translate | armv7/src/mmu.cpp:325-360 | small and large pages; a second-level fault exits |
| Mmus.FirstLevelAddressMatches | armv7/src/mmu.cpp:88-92 | the first-level descriptor address is the architecture's if and only if TTBR1's bits below 14 do no harm |
| Mmus.SizeNIsThreeBits | armv7/src/mmu.cpp:67 | N is the number of the low three bits of TTBCR |
| Mmus.TranslationMatchesArchitecture | armv7/src/mmu.cpp:160-239 | with harmless TTBR1 bits the walk yields the architecture's address wherever there is a mapping, zero for a first-level fault, and otherwise exits |
| Mmus.TranslationMatchesIff | armv7/src/mmu.cpp:88-239 | translation is the architecture's for all tables if and only if the stray TTBR1 bits do no harm |
| Mmus.WrongDescriptorRead | armv7/src/mmu.cpp:88-92 | where they do, tables with one section that the walk misses |
| Mmus.OneStrayBitIsHarmless | armv7/src/mmu.cpp:88-92 | with N at most 1 they never do |
| Mmus.StrayBitMistranslates | armv7/src/mmu.cpp:88-92 | N = 2, TTBR1 bit 12 and address 0x80000000 are translated wrongly |
| Mmus.PageTranslatesTogether | armv7/src/mmu.cpp:325-360 | two addresses of a 4 KB page go to one physical page with their offsets, or both fault, or both exit |
| Tlbs.Tlb.FetchItem | armv7/src/tlb.h:54-65 | finds the frame exactly of a valid cell of this page |
| Tlbs.Tlb.InsertItem | armv7/src/tlb.h:67-74 | overwrites the page's cell |
| Tlbs.Tlb.FlushItem | armv7/src/tlb.h:76-80 | invalidates the page's cell and no other |
| Tlbs.Tlb.FlushAll | armv7/src/tlb.h:82-86 | invalidates that one cell, too |
| Tlbs.PageAndCell | armv7/src/tlb.h:88-92 | a page number is bits 31 to 12 of the address, and its cell bits 16 to 12 |
| Tlbs.AccessIsCached | armv7/src/mmu.cpp:138-145 | a data read leaves its page in the data buffer and any other access in the instruction buffer; the other buffer is not touched |
| Tlbs.FlushedPage | armv7/src/tlb.h:76-80 | a flushed page is not found; pages of other cells are |
| Tlbs.FlushAllEmptiesIff | armv7/src/tlb.h:82-86 | the buffer is empty after flush_all if and only if every other cell was |
| Tlbs.Mmu.Transport | armv7/src/mmu.cpp:119-155 | the translation path with the TLB compiled in; unchanged addresses when translation is off |
| Tlbs.BufferedIsTransparent | armv7/src/mmu.cpp:136-146 | one access over consistent cells is sent where the walk sends it, and cells stay consistent |
| Tlbs.BufferIsTransparent | armv7/src/mmu.cpp:136-154 | every run of data and instruction accesses is sent where the plain walk sends it, with the offset OR-ed in |
| Tlbs.OffsetHarmlessIff | armv7/src/mmu.cpp:146 | OR-ing the offset in changes the plain address exactly at non-zero offsets of faulting pages |
| Tlbs.FlushRestoresTransparency | armv7/src/tlb.h:76-80 | after a table change in one page, flushing it in both buffers makes them consistent with the new tables |
| Tlbs.EmptyIsConsistent | armv7/src/tlb.h:42-47 | buffers with no valid cell are consistent with any tables |
| HashTables.HashTable.HashAddValue | archc/src/acbinutils/acrelconvert.c:100-118 | adds at the front of the bucket: the table maps the index to the new value, and all else as before |
| HashTables.HashTable.HashGetValue | archc/src/acbinutils/acrelconvert.c:143-158 | terminates with the value of the index, or the error code exactly if there is none |
| HashTables.HashTable.ChainStaysInBucket | archc/src/acbinutils/acrelconvert.c:100-118 | every node of a chain is in the chain's bucket, and no node occurs twice |
| HashTables.HashTable.ChainsAreDisjoint | archc/src/acbinutils/acrelconvert.c:112-115 | chains of different buckets share no node |
| HashTables.LastAdditionWins | archc/src/acbinutils/acrelconvert.c:112-115 | after any additions a search finds the value added last |
| HashTables.FoundWasAdded | archc/src/acbinutils/acrelconvert.c:143-158 | and finds only what was added |
| MapFiles.RequestRead | archc/src/acbinutils/acrelconvert.c:191-201 | the next character, or NUL at the end |
| MapFiles.ReadNumber | archc/src/acbinutils/acrelconvert.c:242-269 | reads the digits at hand as a number, and refuses none or twenty and more |
| MapFiles.ReadLine | archc/src/acbinutils/acrelconvert.c:211-329 | one line of the file, by characters, has the result described by ParseLine |
| MapFiles.ProcessMapFile | archc/src/acbinutils/acrelconvert.c:203-350 | accepts the file exactly if ParseText does, having added its pairs in order, swapped in reverse mode |
| MapFiles.LineMeaning | archc/src/acbinutils/acrelconvert.c:218-329 | a line is accepted if and only if it is blank, a comment or number = number with optional white space, and adds exactly the pair of an assignment |
| MapFiles.TextMeaning | archc/src/acbinutils/acrelconvert.c:203-350 | a file is accepted if and only if each line is; otherwise the pairs before the first bad line have been added |
| MapFiles.AcceptedIsAssignment | archc/src/acbinutils/acrelconvert.c:234-329 | a line from which a pair is read has the parts of an assignment |
| MapFiles.WrittenNumberReadBack | archc/src/acbinutils/acrelconvert.c:263 | every 32-bit number in decimal without leading zeros is read back |
| MapFiles.NumberMeaning | archc/src/acbinutils/acrelconvert.c:242-263 | numbers have 1 to 19 decimal digits, and mean their value modulo 2^32 below 2^63 and all ones above |
| MapFiles.WrittenAssignment | archc/src/acbinutils/acrelconvert.c:234-347 | such an assignment with any white space adds exactly its two numbers |
| Relocations.ShiftBytes | archc/src/acbinutils/acrelconvert.c:376-387 | the byte loop computes the big-endian value of the bytes in memory |
| Relocations.ConvertEndian | archc/src/acbinutils/acrelconvert.c:376-393 | conversion between the file's byte order and the host's |
| Relocations.SwapTwice | archc/src/acbinutils/acrelconvert.c:376-393 | converting twice gives the number back |
| Relocations.TypeIsLowByte | archc/src/acbinutils/acrelconvert.c:415 | the type code is one byte of the entry, whose place depends on the byte order |
| Relocations.PackedInfo | archc/src/acbinutils/acrelconvert.c:415-423 | packing the old symbol with a new code changes that byte only |
| Relocations.RetypeKeepsRest | archc/src/acbinutils/acrelconvert.c:414-423 | a patch keeps offset, symbol and addend and sets the type |
| Relocations.PatchEntry | archc/src/acbinutils/acrelconvert.c:408-430 | one entry patched in place in the file, or left alone if its type is unknown |
| Relocations.PatchRelocationSection | archc/src/acbinutils/acrelconvert.c:395-465 | the whole file after REL or RELA patching, successful or not |
| Relocations.EntryCountFits | archc/src/acbinutils/acrelconvert.c:399-400 | a section holds as many whole entries of 8 or 12 bytes as fit in its size |
| Relocations.SectionTypesReplaced | archc/src/acbinutils/acrelconvert.c:395-465 | without error, every type code of the section's entries is replaced by the table's value in eight bits, and no other byte of the file changes |
| Relocations.EveryEntryIsPatched | archc/src/acbinutils/acrelconvert.c:406-431 | in particular entry k of the section, for every k that fits |
| Relocations.InvertibleIsReversible | archc/src/acbinutils/acrelconvert.c:330-345 | distinct right-hand numbers below 256 make the two modes' tables reversible |
| Relocations.ReverseRestoresSection | archc/src/acbinutils/acrelconvert.c:395-465 | with reversible tables the second pass succeeds and restores every byte, in either byte order |
| Relocations.RestoresAllIff | archc/src/acbinutils/acrelconvert.c:395-465 | all sections are restored if and only if every mapped code leads back to itself in eight bits |
| Relocations.SharedCodeIsNotRestored | archc/src/acbinutils/acrelconvert.c:338-345 | a map with a repeated right-hand number and an entry that comes back with another type |
| Relocations.StopsAtOffender | archc/src/acbinutils/acrelconvert.c:408-422 | on an error exactly the entries before the offending one are patched, and the rest is as it was |
| Conversions.ConvertSection | archc/src/acbinutils/acrelconvert.c:50-68 | one run on a section: a map file that is refused leaves the file alone, an accepted one patches it |
| Conversions.MapOfLines | archc/src/acbinutils/acrelconvert.c:330-345 | forward a line maps left to right, in reverse right to left; the last line for a number counts, and nothing else is mapped |
| Conversions.ConvertedTypes | archc/src/acbinutils/acrelconvert.c:395-465 | a successful run replaces every type code of the section through that map, and no other byte |
| Conversions.InvertibleMapIsReversible | archc/src/acbinutils/acrelconvert.c:330-345 | a text with distinct right-hand numbers below 256 gives reversible tables |
| Conversions.ReverseRunRestores | archc/src/acbinutils/acrelconvert.c:395-465 | a successful run is undone by the run in reverse mode, if the tables of the text are reversible |
| Conversions.ConvertAndBack | archc/src/acbinutils/acrelconvert.c:43-75 | from text to file: both runs one after the other leave every byte of the file as it was |
| Conversions.WrittenMapIsRead | archc/src/acbinutils/acrelconvert.c:203-350 | a list of pairs written as lines is read back exactly, in order |
| Encoders.FieldMask | archc/src/acbinutils/bfd.c:281-284 | the generator's loop makes the run of `size` ones |
| Encoders.Insn.Encode | archc/src/acbinutils/gas.c:58-67 | the generated encoder inserts into the named field in place and ignores unknown ones |
| Encoders.GetFieldValue | archc/src/acbinutils/bfd.c:281-286 | the generated extractor |
| Encoders.InsertBits | archc/src/acbinutils/gas.c:58-66 | insertion writes exactly the field's bits and keeps all others |
| Encoders.FieldPlace | archc/src/acbinutils/gas.c:58-66 | a field lies format size - first bit - 1 bits above bit 0, for insertion and extraction |
| Encoders.ExtractedNumber | archc/src/acbinutils/bfd.c:281-286 | extracting an inserted number gives it modulo 2^size |
| Encoders.InsertKeepsOthers | archc/src/acbinutils/gas.c:58-66 | encoding one field leaves disjoint fields' extractions unchanged |
| Encoders.ExtractAfterWrites | archc/src/acbinutils/gas.c:58-66 | after any writes to disjoint fields each field yields what was written to it last |
| Encoders.CopyCoversBits | archc/src/acbinutils/gas.c:58-66 | encoding the fields extracted from another word, in any order, copies exactly the covered bits |
| Encoders.TilesCover | archc/src/acbinutils/gas.c:58-66 | fields laid out from the top to bit 0 cover the format |
| Encoders.ExtractAllThenEncodeAll | archc/src/acbinutils/bfd.c:281-286 | when the fields cover the format, extract-all then encode-all in any order rebuilds the word |
| Multipliers.BoothLoop | archc/acstone/124.loop.c:37-76 | after the loop Signed(A) * 2^32 + Q is the multiplicand times the signed multiplier, where only 0x80000000 is not its own signed reading |
| Multipliers.BoothSumExact | archc/acstone/124.loop.c:41-56 | A never overflows: the 32-bit sum is the signed sum |
| Multipliers.BoothStepKeeps | archc/acstone/124.loop.c:39-75 | after k steps Signed(A) * 2^k + the top k bits of Q = M times the signed value of the low k bits of the original Q |
| Multipliers.BoothMultiply | archc/acstone/124.loop.c:37-80 | A:Q is the exact signed product if and only if M is not 0x80000000 or Q is zero |
| Multipliers.BoothExactIff | archc/acstone/124.loop.c:37-80 | that condition, for all M and Q |
| Multipliers.AddStepKeeps | archc/acstone/123.loop.c:39-56 | the carry register completes the sum to 33 bits, none of which the shift loses |
| Multipliers.ShiftAddLoop | archc/acstone/123.loop.c:37-61 | after the loop A * 2^32 + Q is the product |
| Multipliers.ShiftAddMultiply | archc/acstone/123.loop.c:37-65 | A:Q is the exact unsigned product for all M and Q |
| Gpts.Gpt.PrcGpt | armv7/src/gpt.cpp:69-151 | one cycle: prescaler, first matching compare channel, counter, interrupt line |
| Gpts.PrescalerDivides | armv7/src/gpt.cpp:84-97 | after n cycles the prescaler counter is n mod (P + 1) for P <= 4096 |
| Gpts.ChannelEvents | armv7/src/gpt.cpp:103-138 | in either mode, the counter's place in its round and the events of each channel: one per round if its value is reached and no earlier channel has it, otherwise none |
| Gpts.RestartCounts | armv7/src/gpt.cpp:103-138 | in restart mode the counter is floor(n/(P+1)) mod (OCR1+1); channel 1 fired once per full round, channels 2 and 3 once per round if below OCR1, except 3 in place of 2 |
| Gpts.RestartPeriod | armv7/src/gpt.cpp:103-138 | exactly floor(n / ((P+1)(OCR1+1))) compare events have fired |
| Gpts.FreeRunCounts | armv7/src/gpt.cpp:127-138 | in free-run mode the counter is floor(n/(P+1)) mod 2^32 |
| Gpts.LargePrescalerNeverTicks | armv7/src/gpt.cpp:84-97 | with P above 4096 the counter stands still and nothing fires |
| Gpts.ToggledPin | armv7/src/gpt.cpp:45-66 | for each of the three channels: a toggled pin's level is the parity of the channel's compare events, and its status bit tells whether there was one |
| Gpts.StandsStillIff | armv7/src/gpt.cpp:75-79 | a cycle changes nothing exactly while the timer is disabled or its clock is off or external (prescaler above 0) |
| Gpts.TickRollsOver | armv7/src/gpt.cpp:104-108 | a tick sets the rollover bit at 0xFFFFFFFF and leaves the capture bits |
| Gpts.TickStatus | armv7/src/gpt.cpp:109-126 | a tick sets the status bit of the channel it serves, and no other channel's |
| Gpts.TickPins | armv7/src/gpt.cpp:45-66 | the served channel's pin toggles, clears, sets or stays by its mode |
| Gpts.InterruptLine | armv7/src/gpt.cpp:139-151 | from the first tick on, the line is asserted exactly while some event is both in the status register and enabled |

## Left out

- SdCards.SdCard.ExecCmd: does not model the response that each handler returns; only the effect on the card.
- SdCards.SdCard.SelectCard: does not model the bytes of its response, likewise.
- Esdhcs.Esdhc.WriteCommand: does not model the response registers, nor the response type, command type, DMA and auto-CMD12 bits, which nothing modelled reads.
- Esdhcs.Esdhc.GenerateSignal: does not model the line to the interrupt controller under IRQSIGEN.
- HashTables.HashTable.HashAddValue: does not model a failing allocation.
- Relocations.PatchRelocationSection: does not model a failing write to the file.
- ArmExceptions.BracketedHandlerReturns: takes it as given that the handler ends with its link, because it may use it meanwhile; for handlers that do not, or that save it, HandledExceptionReturns and ArmHandlers.SavingHandlerReturns prove it.
- Other SD paths: writes, SWITCH mode 1 and second commands during a transfer, at which the simulator exits or which are outside the protocol; the block-attribute register, whose two copies of the count are taken as equal when CMD18 is issued.
- The TZIC's priority logic, whose bit tests do not express a priority.
- The barrel shifter: its result and carry are parameters of the instructions, so theorems hold for all of them.
- Loads and stores of single registers, multiplications, SWP, coprocessor transfers, MOVT, PKH, BX, BLX, BFI and the bit-field instructions: what they compute. `ArmPrograms` covers them as any effect on registers, flags, PC and memory.
- MRS with ill-formed encoding fields, which the original reports and skips.
- Registers in an unknown mode, where `bypass_read` returns no value: the model reads 0, and the theorems require a known mode.
- Data aborts inside a load or store multiple: memory always answers.
- `ac_annul`, the register bank and the memory port class are not part of this model; an annulled instruction is abandoned, and memory is little-endian bytes.
- The registers r0 to r12 across an exception: handlers save them in software.
- Permission and memory-type bits of descriptors, and supersections, at which the simulator exits.
- The TLB's cells after construction, which the original leaves uninitialised: transparency assumes consistent cells, for instance all invalid.
- The map parser's twentieth digit, which is written one byte past the buffer before the number is refused: only the refusal is modelled.
- A host that is not little-endian with 64-bit `long`.
- The converter's ELF traversal (`process_elf`), from which the section offsets and sizes come; the model starts at one section.
- The text that the generators print: what the generated code does is modelled.
- The other acstone programs, the UART, ROM, clock and reset modules, the decoder, the debugger stub and SystemC's scheduling, of which only the freedom to interleave is used.
