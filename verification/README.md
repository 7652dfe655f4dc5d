# Verification of the RV64 emulator

This project models the core of a RISC-V RV64GC emulator in Dafny and proves what the core is
meant to guarantee: that its translation cache is invisible to a whole machine, that traps nest,
that compressed instructions mean their expansions, that a trapping step leaves data alone, and that the block
device serves each request once and returns what was written.

`dafny verify dfyconfig.toml` checks everything.

## How it is built

The emulator changes its state step by step, and so does the model. `Emulator.dfy` holds the
objects: RAM as a byte array, the CSR file, the MMU with its four-entry cache, and the hart.
`TrapHandling.dfy`, `Processor.dfy` and `BlockDevice.dfy` hold the routines that work on them:
trap entry and return, instruction handlers, the main loop, and the block device. Each method
is proved to change the whole state exactly as a function on states says. The properties are
then proved about those functions, over all inputs and over whole runs.

| files | subject |
|---|---|
| `Bits`, `Memory` | bit helpers; little-endian words over bytes |
| `Pte`, `PageTable`, `Compose` | PTE fields; the page walk of the emulator without a cache; how it assembles a physical page |
| `ArchWalk`, `PageArithmetic` | exactly when that walk is the one of the Privileged Architecture; physical addresses as numbers |
| `Tlb`, `Lru`, `Marking` | the cache as a value and its refinement of the uncached walk; exact LRU; what write-back of accessed and dirty bits may change |
| `CsrFile`, `Traps`, `Nesting`, `Interrupts` | register views; trap entry and return; nested traps; priority and draining of interrupts, and privilege |
| `Hart`, `AccessPath` | the state of the hart; loads, stores and fetches through MMU and bus |
| `Numbers`, `LittleEndian` | words and bytes as numbers: sums, shifts, sign extension, binary digits |
| `WalkNumbers`, `Translations` | the walk, and a whole translation of the hart, from the numbers in mstatus, satp and memory |
| `Decoder`, `Isa`, `MulDiv`, `Ordering` | field extractors; base integer instructions; products and quotients; comparisons |
| `Expansion`, `Compressed` | the 16-bit instructions as the ISA defines them, and as the emulator executes them |
| `IntegerOps`, `Execution` | what the integer instructions, loads, stores, jumps and steps do, on numbers and bytes |
| `Atomics`, `Reservations`, `System` | AMO, load-reserved and store-conditional; CSR and privileged instructions |
| `AtomicResults`, `SystemResults`, `TrapEntries` | what atomics leave in memory and rd; CSR and privileged instructions by number and bit; where a trap goes, and which interrupt is taken |
| `Machine` | one step of the machine |
| `Invariants`, `CacheRuns`, `Builds` | over every run: the cache agrees with the page tables; it holds whole entries only; the machine runs as the one built without it |
| `Privilege`, `TrapRuns` | over every run: privilege rises by traps only; code interrupted by nested traps resumes unchanged |
| `TrapMarks` | what a trapping step may write, whatever the cache and the tables hold |
| `DiskRequests` | a request posted in memory and what the device does for it; setting up the queue |
| `Virtio`, `DiskHistory` | delayed notification, ring layout and disk requests as values; the image over every history |
| `Emulator`, `TrapHandling`, `Processor`, `BlockDevice` | the objects and the routines on them |

## What the code does that its reader may not expect

Where the code departs from the architecture the model follows the code. These departures are
stated with a proof in the member named.

- An empty cache slot is tagged with page 0, so a lookup of page 0 hits it and faults.
  `Tlb.ServeRefines` says exactly when the cached build agrees with the uncached one.
- `mppn` has 32 bits, so a root table above 4 GiB is truncated. `AccessPath.TableOfSatp` says
  exactly when the table walked is the one satp names.
- The walk ignores the reserved bits of a PTE (63 to 54, and D, A and U of a pointer), and a
  PTE outside memory gives a page fault, not an access fault. `ArchWalk.WalkAgrees` and
  `ArchWalk.TranslateAgrees` say exactly when that makes a difference; `ArchWalk.ReservedLeaf` is
  a leaf that is accepted all the same.
- There is no canonical-address check: `PageTable.AliasesTranslate` shows that an address
  translates as every other with the same bits in use. An unsupported satp mode has no levels
  and faults (`PageTable.UnsupportedFaults`).
- sfence.vma and a satp write that raise an exception take effect all the same
  (`Processor.Fence`, `Processor.CsrSatp`).
- The 16-bit forms that the ISA reserves execute: c.addi4spn, c.addi16sp and c.lui without an
  immediate, c.addiw, c.lwsp and c.ldsp without a destination, c.jr through x0. Only the all-zero
  32-bit word traps. `Compressed.Unexpanded` says exactly which words trap,
  `Compressed.ReservedExecutes` what the reserved ones do, `Compressed.ReservedExample` gives one.
- `c.ebreak` is dispatched to `c.jalr`. `c.jr` and `c.jalr` keep bit 0 of their target. A
  compressed load that faults clears its destination. `Machine.ExecutesExpansion` says exactly
  when a compressed instruction equals its expansion.
- The overflow case of `div` is tested with the least 32-bit number; `MulDiv.SignedDivision`
  says exactly when `div` and `rem` divide exactly.
- `sra` shifts the sign-extended low half and `remw` divides by the whole register;
  `Isa.SraExact` and `MulDiv.RemWExact` say exactly when they give what the ISA prescribes.
  `remuw` works on whole registers (`MulDiv.RemUWWhole`) and does not sign-extend its result;
  `MulDiv.RemUWExact` says exactly when that makes no difference.
- A misaligned 32-bit AMO raises an instruction-address-misaligned exception and a 64-bit one
  an illegal-instruction exception, and the operation goes on without effect on memory
  (`Processor.AtomicWidth`, `Atomics.AmoKeepsFault`, `Atomics.TrappingAtomicStoresNothing`).
- An AMO to an address outside RAM raises the access fault of its load, which comes first; its
  page faults are store page faults as they should be (`Atomics.AmoException`).
- Reservations of several addresses coexist, and a store-conditional consumes its own only
  (`Reservations.HeldMeans`, `Reservations.ReservationsFollow`).
- sret clears MPRV on a return to user mode only, not to supervisor mode (`Traps.SretFields`).
- Loading mstatus sets bit 33; the register gains it on any bit write (`CsrFile.StoreBack`).
- The available ring leaves no room for used_event; `Virtio.RingLayout` says exactly when the
  used ring is still where the legacy layout puts it.
- A DMA access of the block device outside RAM raises an exception in the hart
  (`BlockDevice.ServedMeans`).

## Model

| member | source | states |
|---|---|---|
| Emulator.Mmu.Translate | source/mmu.cpp:291-380 | Translation on the MMU object, with its cache aged, filled, flushed or marked in place, leaves hart and memory as `AccessPath.Translated` defines, which `Translations.TranslationMeans` determines from the numbers in mstatus, satp and memory |
| Emulator.Mmu.EffectiveMode | source/mmu.cpp:298-309 | The privilege checked: MPP under MPRV for loads and stores, else the current mode |
| Emulator.Mmu.FinishTranslation | source/mmu.cpp:318-380 | What follows the lookup: permission checks under the bits of mstatus that `Translations.TranslationMeans` names, write-back, physical address, and nothing else |
| Emulator.Mmu.CheckEntry | source/mmu.cpp:321-363 | The emulator's check cascade decides exactly the predicate `EntryPermits` |
| Emulator.Mmu.MarkSlot | source/mmu.cpp:365-377 | A and D are set in slot and memory exactly when missing; the physical base stays |
| Emulator.Mmu.GetTlbEntry | source/mmu.cpp:227-277 | Hit or refill, or in the build without the cache the walk into slot 0: the resulting slots are those of the value-level lookup; a fault flushes |
| Emulator.Mmu.Scan | source/mmu.cpp:230-257 | The scan finds the first slot tagged with the page, or the first of the oldest; every slot it passes has aged by one |
| Emulator.Mmu.Refill | source/mmu.cpp:259-266 | On a miss the victim slot becomes the filled entry of the walk, or everything is flushed |
| Emulator.Mmu.FetchPte | source/mmu.cpp:149-225 | The walk that overwrites a slot in place agrees with the recursive walk: fault, or leaf with all fields of the slot |
| Emulator.Mmu.WalkTables | source/mmu.cpp:151-188 | The walk loop terminates with the level and PTE of the recursive walk for 3, 4 and 5 levels (0 levels fault) |
| Emulator.Mmu.PageOfLeaf | source/mmu.cpp:190-224 | Alignment check and physical page of a leaf, as the architecture defines both |
| Emulator.Mmu.AssembleBase | source/mmu.cpp:205-222 | The two composition loops yield the page of the leaf with its low 9i bits taken from the address |
| Emulator.Mmu.IsAligned | source/mmu.cpp:192-199 | The loop over page-number fields accepts exactly the aligned leaves |
| Emulator.Mmu.GetVpn | source/mmu.cpp:92-102 | Fills in the nine-bit fields of all levels |
| Emulator.Mmu.GetPpn | source/mmu.cpp:104-129 | Fills in the page-number fields with the wider top field of the mode |
| Emulator.Mmu.FlushTlb | source/mmu.cpp:279-289 | Every slot becomes empty with the reset age |
| Emulator.Mmu.SetCpuError | source/mmu.cpp:131-147 | Raises the page fault of the access kind with the address, and flushes |
| Emulator.Mmu.Update | source/mmu.cpp:64-75 | Latches mode and the 32-bit table address of satp, and flushes |
| AccessPath.TableOfSatp | source/mmu.cpp:64-75 | The table latched is the one satp names if and only if its page number is below 2^20 |
| WalkNumbers.WalkMeans | source/mmu.cpp:149-199 | The walk is the walk on numbers: at each level the table plus 8 times the nine-bit field of the address from bit 12 + 9i on, the eight bytes there as a number, its bits 0 to 3 as V, R, W and X, and the 44 bits from bit 10 on as the page number, which for a leaf must be a multiple of 2^(9i) |
| WalkNumbers.WalkOfMeans | source/mmu.cpp:64-90 | It starts as the number in satp says: 3, 4 or 5 levels for 8, 9 or 10 in bits 63 to 60, none for another mode, and the page number in bits 43 to 0 times 4096, modulo 2^32 |
| Translations.TranslationMeans | source/mmu.cpp:291-380 | A translation of the hart, in either build, from the numbers in mstatus (0x300), satp (0x180) and memory: mode 0 and machine mode pass the address through; bit 17 of mstatus has loads and stores checked at the mode in bits 12 and 11; bit 18 is SUM, bit 19 MXR; bits 1 to 4 of the leaf are R, W, X and U; what is not granted raises the page fault of the access with the address as data; what is gives the page number times 4096 plus the low 12 + 9i bits, and the leaf in memory gains bit 6, and bit 7 for a store, and nothing else changes |
| Translations.PageZeroTranslation | source/mmu.cpp:236-248 | The one case outside that statement: page 0 looked up with a slot of the cache empty faults |
| Translations.SumDecides | source/mmu.cpp:328-333 | A supervisor's load from a readable user page faults if and only if bit 18 of mstatus is clear |
| Translations.MxrDecides | source/mmu.cpp:343-349 | A supervisor's load from an execute-only supervisor page faults if and only if bit 19 is clear |
| Translations.MprvDecides | source/mmu.cpp:298-309 | In machine mode with bit 11 of mstatus clear a load of a supervisor page faults if and only if bit 17 is set; a fetch uses the address as it is |
| Emulator.Mmu.Load | source/mmu.cpp:19-31 | A load is translation then bus load; an exception gives 0 and no bus access |
| Emulator.Mmu.Fetch | source/mmu.cpp:33-50 | As a load, a bus fault being renamed to instruction access fault |
| Emulator.Mmu.Store | source/mmu.cpp:52-62 | A store reaches the bus only without an exception |
| Compose.GatheredIsPhysBase | source/mmu.cpp:209-222 | For every mode and level the gathered fields are the architectural page: section 4.3.2 of the Privileged Architecture v1.12 |
| Compose.MisalignedFields | source/mmu.cpp:190-199 | Some field below the leaf's level is nonzero if and only if the leaf is misaligned |
| PageTable.WalkLeaf | source/mmu.cpp:159-188 | A walk that succeeds ends in a valid, aligned leaf at an aligned address |
| PageTable.WalkOfPage | source/mmu.cpp:92-102 | A walk depends on the page of the address only |
| PageTable.AliasesTranslate | source/mmu.cpp:92-102 | Translation depends on the low 12 + 9n bits of an address only, n levels deep: every address translates as its aliases do |
| PageTable.UnsupportedFaults | source/mmu.cpp:149-160 | Under a mode that is none of the four every translation that is not bypassed faults |
| ArchWalk.WalkAgrees | source/mmu.cpp:149-188 | Against the walk of section 4.3.2 of the Privileged Architecture v1.12, with reserved bits and access faults: that walk finds a leaf if and only if the emulator does and no PTE read has a reserved bit set, and then the same leaf; it raises an access fault if and only if the walk ends outside memory and no PTE read has one |
| ArchWalk.TranslateAgrees | source/mmu.cpp:149-225 | A translation has the outcome of section 4.3.2 if and only if it is bypassed, or it does not use a PTE with a reserved bit set to give an address, and its walk does not end outside memory with unreserved PTEs only |
| ArchWalk.ReservedLeaf | source/mmu.cpp:171-188 | 0x0040_0000_0000_00df, a leaf with bit 54 set, is accepted where the architecture faults |
| PageArithmetic.PhysicalAddress | source/mmu.cpp:205-222 | The address that an aligned leaf at level i gives is its page number times 2^12 plus the virtual address modulo 2^(12 + 9i) |
| PageArithmetic.PhysBaseMeans | source/mmu.cpp:205-222 | Its page is that less the offset |
| PageTable.WalkSameButAD | source/mmu.cpp:365-377 | Changing only A and D bits anywhere in memory changes no walk |
| PageTable.WalkAfterStore | source/mmu.cpp:159-182 | A store that overlaps none of the PTEs a walk reads does not change the walk |
| Tlb.ServeRefines | source/mmu.cpp:227-380 | One cached translation keeps the cache coherent, never loses a write-back, and equals the uncached one if and only if the page is not page 0 with an empty slot left, or translation is bypassed, or the tables fault too |
| Tlb.PageZeroFaults | source/mmu.cpp:236-248 | Page 0 looked up while a slot is empty matches the empty slot and faults, whatever the memory holds |
| Tlb.RunRefines | source/mmu.cpp:227-277 | Over every run of accesses in any context, satp writes and data stores apart from cached walks, in which page 0 waits for a full cache unless the tables fault it too, the cached MMU gives the answers and the memory that the page tables define |
| Tlb.StepRefines | source/mmu.cpp:267-273 | One step of that run |
| Tlb.DirectTranslates | source/mmu.cpp:267-273 | The build without the cache, which walks into slot 0 on every access and then checks and marks it, translates as the page tables define, whatever the slots held |
| Tlb.ServeInRefines | source/mmu.cpp:227-277 | Both builds translate as the page tables define, the cached one exactly outside the page-0 case |
| Builds.RunsAlike | source/mmu.cpp:227-277 | Whole machines: over every run whose software overwrites no table of a cached page, and accesses a mapped page 0 with a full cache only, the machine built without the cache makes the same steps and ends in the same state, cache aside |
| Tlb.ServeWhole | source/mmu.cpp:227-380 | With any tables in any memory a translation leaves whole entries only: every slot holds a valid aligned leaf with its flags and a page that fits it, or nothing |
| CacheRuns.RunSane | source/mmu.cpp:131-277 | In every reachable state, wherever software stores, the cache is whole, and every filled slot is the result, up to A and D, of a walk made under the root now in force |
| Tlb.MarkStale | source/mmu.cpp:365-377 | A stale copy that lacks D writes back exactly what the PTE itself would, and skips no needed write |
| Tlb.EntryAfterMark | source/mmu.cpp:365-377 | Marking one leaf keeps every other slot current, also a second copy of the same PTE |
| Tlb.PermitsAgree | source/mmu.cpp:321-363 | The checks on the flags of a slot are the architectural checks on the PTE, for stale copies too |
| Tlb.CoherentAfterWrite | source/mmu.cpp:227-277 | A data store apart from the walks of cached pages keeps the cache coherent |
| Marking.TranslateOnlyMarks | source/mmu.cpp:365-377 | A translation changes memory only by setting A and D in leaf PTEs |
| Marking.MarkedKeepsMapping | source/mmu.cpp:365-377 | Such marks change no address's mapping or permissions |
| Marking.OtherBytesKept | source/mmu.cpp:365-377 | Bytes outside leaf PTEs keep their values |
| Lru.RunLru | source/mmu.cpp:230-265 | Over every run of any accesses, stores and roots with no more than 2^64 - 2^32 lookups since a flush at any point, the ages order the filled slots exactly by last use, and empty slots are older than all of them |
| Lru.HeldAreMostRecent | source/mmu.cpp:230-265 | The filled slots hold exactly the most recently used distinct pages, at most four, none twice |
| Lru.VictimIsOldest | source/mmu.cpp:250-259 | The victim is an empty slot while there is one, otherwise the least recently used |
| Tlb.NeverWriteOnly | source/mmu.cpp:321-326 | The slot a lookup yields from a whole cache is not writable without being readable |
| CacheRuns.RunNeverWriteOnly | source/mmu.cpp:321-326 | After every run no lookup of the next step, for its fetch or the accesses of its instruction, yields an entry that the first check of translate would reject |
| AccessPath.TranslatedOnlyMarks | source/mmu.cpp:291-380 | A translation on the hart keeps the cache coherent and changes nothing but marks, cache and exception |
| AccessPath.FaultingStoreOnlyMarks | source/mmu.cpp:52-62 | A store that ends in an exception stores nothing |
| Emulator.Ram.Load | source/peripherals/ram.cpp:23-42 | Reads little-endian words from the byte array |
| Emulator.Ram.Store | source/peripherals/ram.cpp:49-70 | Writes little-endian words in place and no other byte |
| Memory.LoadStored | source/peripherals/ram.cpp:23-70 | A stored value reads back, truncated to its width |
| Memory.LoadElsewhere | source/peripherals/ram.cpp:49-70 | A store does not affect loads that do not overlap it |
| Memory.StoreLoaded | source/peripherals/ram.cpp:23-70 | Storing back what was loaded changes nothing |
| Memory.BytesOfValue | source/helper.cpp:36-83 | Bytes to value and back is the identity |
| LittleEndian.LoadsNumber | source/peripherals/ram.cpp:23-42 | A load gives the number that the bytes make up, the first the least significant |
| LittleEndian.StoreMeans | source/peripherals/ram.cpp:49-70 | A store of n bytes leaves the number modulo 256^n there, and every other byte as it was |
| Emulator.Cpu.BusLoad | source/bus.cpp:14-27 | A load outside the device raises a load access fault and gives 0 |
| Emulator.Cpu.BusStore | source/bus.cpp:29-41 | A store outside the device raises a store access fault and stores nothing |
| Emulator.Cpu.constructor | source/cpu.cpp:27-71 | The reset state, in either build: machine mode, pc at the start of RAM, stack pointer at its end, MMU mirroring satp, every slot of the cache empty |
| Bits.BitKept | source/helper.cpp:96-106 | Writing one bit leaves every other bit |
| Bits.FieldWritten | source/helper.cpp:108-119 | Every bit of a field write at every position: inside the field the bits of the value, below it the old bits, above it the old bits with the bits of the value that do not fit |
| Bits.BitOutsideField | source/helper.cpp:108-119 | A field write is local at every position when the value fits the field |
| Bits.FieldRead | source/helper.cpp:90-119 | A field written reads back, cut to its width; a value that fits reads back whole |
| Bits.FieldKept | source/helper.cpp:90-106 | Writing a bit outside a field leaves the field |
| Emulator.Csr.Load | source/csr.cpp:12-27 | The register views on the register array |
| Emulator.Csr.Store | source/csr.cpp:29-53 | Stores through the views update the register behind them in place |
| Emulator.Csr.WriteMppMode | source/csr.cpp:85-88 | Writes the mode code to mstatus.MPP |
| Emulator.Csr.ReadMppMode | source/csr.cpp:90-103 | Reads the mode, the reserved value giving the invalid mode |
| CsrFile.StoreIsLocal | source/csr.cpp:29-53 | A store changes only the register behind the address, and there only the writable bits, for every address and value |
| CsrFile.StoreThenLoad | source/csr.cpp:12-53 | Through sstatus and sie a store then a load gives the value under the mask |
| CsrFile.StoreThenLoadSip | source/csr.cpp:44-49 | Through sip only a delegated software interrupt changes |
| CsrFile.StoreBack | source/csr.cpp:12-53 | Storing back what was read changes nothing, except that mstatus gains its constant bit |
| TrapHandling.Process | source/interrupt.cpp:97-218 | Interrupt and exception entry on the objects: delegation, vector, mode, saved registers, which `TrapEntries.TrapEnters` states by number |
| TrapHandling.GetPendingInterrupt | source/interrupt.cpp:8-95 | The poll on the objects: gating, device line, first pending interrupt, its bit cleared |
| TrapHandling.KeptOut | source/interrupt.cpp:8-25 | The tests of the global enable bits and the sleep flag at the start of the poll |
| TrapHandling.TakeFirst | source/interrupt.cpp:54-94 | The cascade takes the first pending interrupt of the priority list and clears exactly its bit |
| TrapHandling.ReturnFromSupervisor | source/instructions/csrtypeinsn.cpp:124-146 | sret on the objects |
| TrapHandling.ReturnFromMachine | source/instructions/csrtypeinsn.cpp:148-170 | mret on the objects |
| Traps.SupervisorEntryFields | source/interrupt.cpp:111-137 | Entry to supervisor mode sets SEPC, SCAUSE, STVAL, SPIE, SIE and SPP and no other register or trap field |
| Traps.MachineEntryFields | source/interrupt.cpp:138-164 | Entry to machine mode sets MEPC, MCAUSE, MTVAL, MPIE, MIE and MPP and no other register or trap field |
| Traps.SretFields | source/instructions/csrtypeinsn.cpp:124-146 | sret changes SIE, SPIE, SPP and MPRV only |
| Traps.MretFields | source/instructions/csrtypeinsn.cpp:148-170 | mret changes MIE, MPIE, MPP and MPRV only |
| TrapEntries.TrapEnters | source/interrupt.cpp:97-218 | A half of a step that takes a trap: from user or supervisor mode with the bit of its number set in mideleg (0x303), unless it is interrupt 7, or medeleg (0x302), it ends in supervisor mode at stvec (0x105) less its low two bits, plus 4 times the number for an interrupt when bit 0 is set, with the even pc, the cause and the value in 0x141, 0x142 and 0x143; otherwise in machine mode with 0x305, 0x341, 0x342 and 0x343. The cause is the number of table 3.6, with bit 63 exactly for interrupts; SPIE, SIE and SPP, or MPIE, MIE and MPP, are set from the state before |
| Nesting.TrapReturns | source/instructions/csrtypeinsn.cpp:124-170 | A trap whose handler keeps its own context returns to the interrupted mode, enable bits and even pc |
| Nesting.SaveReturns | source/instructions/csrtypeinsn.cpp:203-211 | A handler that writes back the trap registers it found has its context and its enable bits again |
| TrapRuns.Returning | source/cpu.cpp:117-159 | A step of the machine that executes mret or sret ends where the return goes: epc less 4 plus the length of the step |
| TrapRuns.EnteringExecution | source/cpu.cpp:137-155 | A step that ends in an exception is the entry of a trap at the pc of its instruction, with mode and trap registers untouched before it |
| TrapRuns.EnteringPoll | source/cpu.cpp:123-135 | A poll that delivers an interrupt is the entry of its trap at the pc not yet executed |
| TrapRuns.QuietExecution | source/cpu.cpp:137-159 | A step that takes no trap and executes no system instruction keeps mode, enable bits and every trap context |
| TrapRuns.EntryNeverLowers | source/interrupt.cpp:97-218 | A half of a step of the machine that takes a trap does not lower the privilege |
| TrapRuns.RunKeeps | source/cpu.cpp:117-159 | Every run of the machine, by polls and executions, that is well nested into traps with their handlers, and into stretches in which a handler may enable its interrupts and take traps to its own level, and at whose end it has its registers and enable bits back, leaves mode, enable bits and live trap contexts as they were |
| TrapRuns.StepsKeep | source/cpu.cpp:117-159 | The same in terms of whole steps |
| TrapRuns.TrapIsTransparent | source/cpu.cpp:117-159 | A trap anywhere in a run, with any well-nested handler, resumes at the interrupted pc, made even, with mode, enable bits and every outer context as they were |
| Nesting.MachineTrapInSupervisorHandler | source/interrupt.cpp:174-217 | A machine-mode trap inside a supervisor handler leaves SEPC, SCAUSE, SIE, SPIE and SPP intact, and both returns resume where they should |
| Interrupts.FirstIsHead | source/interrupt.cpp:63-92 | The poll returns the first of MEI, MSI, MTI, SEI, SSI, STI in mie and mip (section 3.1.9 of the Privileged Architecture) |
| Interrupts.TakenClears | source/interrupt.cpp:63-92 | Taking an interrupt clears its own pending bit and no other |
| Interrupts.PollsDrain | source/interrupt.cpp:54-94 | Successive polls, while nothing raises another interrupt, deliver exactly the pending ones, each once, in priority order, or none if the global enable bit of the mode keeps them out |
| Interrupts.SixPollsDrain | source/interrupt.cpp:54-94 | Six polls are always enough |
| TrapEntries.PollMeans | source/interrupt.cpp:8-95 | What the poll delivers, by the bits: nothing, unless the hart sleeps, with bit 3 of mstatus clear in machine mode or bit 1 in supervisor mode; else the first of 11, 3, 7, 9, 1 and 5 whose bit is set in mie (0x304) and mip (0x344), a raised line counting as bit 9 of mip; afterwards mip has that bit clear and no other changed but bit 9 |
| TrapEntries.PollTakes | source/cpu.cpp:117-135 | The first half of a step takes the interrupt that the registers before it choose |
| TrapEntries.PollCounts | source/cpu.cpp:117-180 | It adds one to cycle (0xc00), modulo 2^64, and clears register 0 |
| Interrupts.PrivilegeStep | source/interrupt.cpp:104-199 | Privilege rises at trap entry only and trap entry never lowers it; a state stays lawful if and only if the event is no store to mstatus of a value with MPP = 2 |
| Interrupts.ReservedOnlyThroughMstatus | source/csr.cpp:29-53 | A store puts the reserved value in MPP if and only if it goes to mstatus itself and the value has it |
| Interrupts.RunStaysLawful | source/csr.cpp:85-103 | Over every sequence of traps, returns and register stores that never writes MPP = 2 to mstatus the mode stays user, supervisor or machine; `Privilege.RunPrivilege` says so of runs of the machine |
| Privilege.OnlyTrapsRaisePrivilege | source/cpu.cpp:117-159 | A whole machine step from a lawful state that takes no interrupt and no exception does not raise the privilege |
| Privilege.StepLawful | source/instructions/csrtypeinsn.cpp:189-317 | A machine step keeps a lawful state lawful if and only if it executes no instruction that stores MPP = 2 in mstatus |
| Privilege.RunPrivilege | source/cpu.cpp:117-159 | Over every run of the machine without such an instruction the reserved mode is never reached, and privilege rises in steps that take an interrupt or an exception only |
| Processor.Quadrant0 | source/instructions/ctypeinsn.cpp:5-37 | The quadrant 0 dispatch and handlers on the objects; what they leave in registers and memory is `Execution.CompressedLoadExecutes` and `Execution.CompressedStoreExecutes` |
| Processor.Quadrant1 | source/instructions/ctypeinsn.cpp:101-143 | The quadrant 1 dispatch and handlers on the objects |
| Processor.ArithmeticOp | source/instructions/ctypeinsn.cpp:39-99 | The register arithmetic of quadrant 1 on the objects |
| Processor.Quadrant2 | source/instructions/ctypeinsn.cpp:145-202 | The quadrant 2 dispatch and handlers on the objects; its loads and stores are those of `Execution.CompressedLoadExecutes` and `Execution.CompressedStoreExecutes` |
| Processor.Execute16 | source/cpu.cpp:217-234 | Dispatch of 16-bit instructions on the objects |
| Expansion.DecodeI | source/decoder.cpp:41-44 | The decoder inverts the I format, with the immediate sign-extended |
| Expansion.DecodeS | source/decoder.cpp:46-49 | The decoder inverts the S format |
| Expansion.DecodeB | source/decoder.cpp:51-55 | The decoder inverts the B format |
| Expansion.DecodeJ | source/decoder.cpp:62-66 | The decoder inverts the J format |
| Expansion.DecodeR | source/decoder.cpp:21-86 | The decoder inverts the R format |
| Compressed.SameJImm | source/instructions/ctypeinsn.cpp:450-463 | The offset that c.j collects bit by bit is the sign-extended offset of the CJ format |
| Compressed.SameBImm | source/instructions/ctypeinsn.cpp:465-501 | The offset of c.beqz and c.bnez is that of the CB format |
| Compressed.SameAddi16spImm | source/instructions/ctypeinsn.cpp:344-356 | The immediate of c.addi16sp is that of its format |
| Compressed.SameLuiImm | source/instructions/ctypeinsn.cpp:358-370 | The immediate of c.lui is that of its format |
| Compressed.SameCImm | source/instructions/ctypeinsn.cpp:302-342 | The immediate of c.addi, c.addiw, c.li and c.andi is that of the CI format |
| Compressed.SameAsExpansion | source/instructions/ctypeinsn.cpp:39-623 | For every word, registers and pc: the effect of a 16-bit integer instruction is that of its 32-bit expansion (chapter 16 of the Unprivileged ISA) with length and link 2; the targets agree if and only if no register jump goes to an odd address |
| Compressed.EbreakJumps | source/instructions/ctypeinsn.cpp:161-187 | For every word that expands to ebreak, whatever its upper halfword: the emulator jumps to address 0 and links |
| Compressed.OnlyEbreak | source/instructions/ctypeinsn.cpp:161-187 | The words that expand to ebreak, the only expansion that is no base integer instruction, are those with the encoding of c.ebreak in their lower halfword |
| Compressed.Unexpanded | source/instructions/ctypeinsn.cpp:5-202 | A word without an expansion that is no floating-point load or store traps as illegal if and only if it is not of a reserved form |
| Compressed.ReservedExecutes | source/instructions/ctypeinsn.cpp:5-202 | The reserved forms execute, without an exception of their own: they do what their fields give with length 2 |
| Compressed.ReservedExample | source/cpu.cpp:173-215 | The halfword 0, defined to be illegal, with a nonzero halfword after it copies sp to x8 |
| Compressed.UpperHalfIgnored | source/instructions/ctypeinsn.cpp:204-623 | The expansion, and whether the form is reserved, do not depend on the upper halfword of the fetched word |
| Machine.ExecutesExpansion | source/instructions/ctypeinsn.cpp:5-623 | For every expanded word: the 16-bit instruction leaves the machine in the state of its expansion, up to x0, if and only if it is not c.ebreak, no register jump to an odd address and no faulting load into a nonzero register |
| Execution.FieldsMean | source/decoder.cpp:11-86 | Where opcode, rd, funct3, rs1, rs2, funct7 and funct5 are in a word |
| Execution.Computes | source/instructions/rtypeinsn.cpp:6-384 | Every instruction of the opcodes 0x33, 0x3b, 0x13 and 0x1b: rd gets the sum, difference, product, quotient, remainder, comparison, power-of-two multiple, rounded-down quotient or digit-wise combination of the numbers in the registers and the immediate that its funct3 and funct7 select, cut to 32 bits and sign-extended for words, and nothing else changes; the other combinations are illegal |
| IntegerOps.OpMeans | source/instructions/rtypeinsn.cpp:6-384 | Opcode 0x33 with its departures: sra of the low half, div of -2^31 by -1 |
| IntegerOps.OpWMeans | source/instructions/r64insn.cpp:6-198 | Opcode 0x3b with its departures: remw by the whole register, remuw of whole registers, sllw, divw, remw and remuw whatever funct7 is |
| IntegerOps.OpImmMeans | source/instructions/itypeinsn.cpp:3-127 | Opcode 0x13 |
| IntegerOps.OpImmWMeans | source/instructions/i64insn.cpp:4-68 | Opcode 0x1b, slliw with a six-bit count |
| IntegerOps.OtherOpcodes | source/cpu.cpp:236-307 | fence does nothing, and a word whose opcode is none of the table is illegal |
| Execution.LoadExecutes | source/instructions/loadinsn.cpp:4-110 | lb to lwu by funct3: rd gets the number of the 1, 2, 4 or 8 bytes at the physical address of the sum of register and immediate, wrapped to its width as a signed number for lb, lh and lw and as it is for ld, lbu, lhu and lwu; a fault of the translation or of the bus leaves rd |
| Execution.CompressedLoadExecutes | source/instructions/ctypeinsn.cpp:230-254 | c.lw, c.ld, c.lwsp and c.ldsp likewise, but a fault clears rd |
| Execution.StoreExecutes | source/instructions/stypeinsn.cpp:5-70 | sb, sh, sw and sd: the low 1, 2, 4 or 8 bytes of the register are at the physical address, least significant first, and every other byte is as the translation left it |
| Execution.CompressedStoreExecutes | source/instructions/ctypeinsn.cpp:275-300 | c.sw, c.sd, c.swsp and c.sdsp likewise |
| Execution.UpperExecutes | source/instructions/otherinsn.cpp:31-44 | lui and auipc |
| Execution.JalExecutes | source/instructions/otherinsn.cpp:8-15 | jal: the step ends at pc plus the immediate with pc + 4 in rd |
| Execution.JalrExecutes | source/instructions/otherinsn.cpp:17-29 | jalr: it ends at the sum of register and immediate, made even |
| Execution.BranchExecutes | source/instructions/btypeinsn.cpp:4-102 | beq to bgeu by funct3 compare the signed or unsigned numbers; the step ends at pc plus the immediate or pc plus 4 |
| Execution.FetchMeans | source/mmu.cpp:33-50 | A fetch gives the number of the four bytes at the physical address of pc, the page fault, or the instruction access fault |
| Execution.StepMeans | source/cpu.cpp:137-215 | The second half of a step without an exception executes the word at pc, as a 32-bit instruction if and only if it ends in binary 11, and advances pc by 4 or 2 |
| Execution.ZeroWord | source/cpu.cpp:197-201 | The word 0 is illegal, with 0 as its data |
| Isa.NetPc | source/instructions/btypeinsn.cpp:32-102 | Every base instruction nets to its architectural target modulo 2^64, and one that raises has not moved pc |
| Isa.NetRelative | source/instructions/otherinsn.cpp:8-15 | pc += imm - length and the length added by the step make pc + imm |
| Isa.LoadsKeep | source/instructions/loadinsn.cpp:35-109 | A base load that faults keeps rd |
| MulDiv.SignedProduct | source/instructions/rtypeinsn.cpp:182-192 | mulh and mul are the exact 128-bit signed product |
| MulDiv.MixedProduct | source/instructions/rtypeinsn.cpp:206-216 | mulhsu and mul are the exact product of a signed and an unsigned number, although the signed operand wraps modulo 2^128 |
| MulDiv.UnsignedProduct | source/instructions/rtypeinsn.cpp:230-240 | mulhu and mul are the exact unsigned product |
| MulDiv.LowWord | source/instructions/rtypeinsn.cpp:146-156 | mul is the low word of the signed, the mixed and the unsigned product |
| MulDiv.UnsignedDivision | source/instructions/rtypeinsn.cpp:289-384 | divu and remu divide exactly, by zero they give all ones and the dividend |
| MulDiv.SignedRemainder | source/instructions/rtypeinsn.cpp:332-353 | rem is the remainder with the sign of the dividend, also for division by zero and overflow |
| MulDiv.SignedDivision | source/instructions/rtypeinsn.cpp:254-275 | div and rem divide exactly if and only if the operands are not -2^31 and -1, which the overflow test of div names |
| MulDiv.SignedDivisionW | source/instructions/r64insn.cpp:98-119 | divw is the truncated quotient of the low halves, sign-extended |
| MulDiv.UnsignedDivisionW | source/instructions/r64insn.cpp:145-162 | divuw is the quotient of the unsigned low halves, sign-extended |
| MulDiv.RemWExact | source/instructions/r64insn.cpp:176-186 | remw is the remainder of the low halves if and only if the divisor is a sign-extended word, or its low half is zero or greater than the dividend, or the division is -2^31 by 2^31 |
| MulDiv.RemUWWhole | source/instructions/r64insn.cpp:188-198 | remuw is the remainder of the whole registers |
| MulDiv.RemUWExact | source/instructions/r64insn.cpp:188-198 | For every nonzero divisor remuw is the sign-extended remainder of the low halves if and only if that remainder is below 2^31 and differs from the dividend by a multiple of the divisor, or is not and the dividend is its sign extension and below the divisor |
| MulDiv.RemUWZeroExtended | source/instructions/r64insn.cpp:188-198 | On zero-extended words that is when the remainder is below 2^31 |
| Isa.SraExact | source/instructions/rtypeinsn.cpp:308-318 | For counts below 32 sra is the shift of the whole register if and only if the register is a sign-extended word |
| Ordering.BelowMeans | source/instructions/rtypeinsn.cpp:218-228 | The unsigned comparisons of branches and sltu compare the numbers |
| Ordering.BelowSignedMeans | source/instructions/rtypeinsn.cpp:194-204 | The signed comparisons of branches and slt compare the signed numbers |
| Ordering.AmoExtremes | source/instructions/atomictype.cpp:432-494 | The 64-bit minimum and maximum AMOs store the extreme of the operands |
| Ordering.AmoWordExtremes | source/instructions/atomictype.cpp:241-303 | The 32-bit ones do so on the low halves |
| AtomicResults.AmoValueMeans | source/instructions/atomictype.cpp:122-154 | What each AMO computes, in both widths: sum, operand, digit-wise combination, signed or unsigned minimum or maximum of the number in memory and the number in the register |
| AtomicResults.AmoExecutes | source/instructions/atomictype.cpp:5-154 | After an AMO without an exception the word at its physical address, which its load and its store agree on, is that result, rd is the old word sign-extended, and every other byte is as the two translations left it |
| AtomicResults.ReservationExecutes | source/instructions/atomictype.cpp:156-191 | lr and sc without an exception: rd gets the word in memory and the address is reserved; the word of the register is in memory, the reservation gone and rd 0, or nothing changes but rd, which is 1 |
| AtomicResults.AtomicTraps | source/instructions/atomictype.cpp:5-115 | Atomics of another funct3 or funct5 are illegal, and an address that is no multiple of the width raises an exception in every operation |
| AtomicResults.MisalignedRaises | source/instructions/atomictype.cpp:5-59 | That exception is InstructionAddressMisaligned for a word and an illegal instruction for a doubleword, unless the accesses, which are made all the same, end in a page fault |
| Processor.AmoHandler | source/instructions/atomictype.cpp:122-154 | The read-modify-write handlers on the objects; what they leave in memory and rd is `AtomicResults.AmoExecutes` |
| Processor.LoadReservedHandler | source/instructions/atomictype.cpp:156-167 | lr.w and lr.d on the objects: the reservation is taken even when the load faults |
| Processor.StoreConditionalHandler | source/instructions/atomictype.cpp:169-191 | sc.w and sc.d on the objects: the reservation is consumed before the store |
| Processor.AtomicWidth | source/instructions/atomictype.cpp:5-99 | The alignment test, whose exception differs by width, and the dispatch that goes on after it |
| Processor.AtomicHandler | source/instructions/atomictype.cpp:101-115 | The dispatch on the width |
| Atomics.TrappingAtomicStoresNothing | source/instructions/atomictype.cpp:5-138 | An atomic instruction that ends in an exception, from its load, alignment or store, changes no data |
| Atomics.AmoKeepsFault | source/instructions/atomictype.cpp:122-138 | An AMO that was misaligned or whose load faults does end in an exception |
| Atomics.AmoException | source/instructions/atomictype.cpp:122-138 | The exception an AMO ends in: a store page fault if its page cannot be read or cannot be written, otherwise the access fault of the load if its address is outside RAM, otherwise that of the store if that is, otherwise none |
| Reservations.ConditionalSucceeds | source/instructions/atomictype.cpp:169-191 | After every run that starts without reservations, a store-conditional succeeds if and only if the run holds an unconsumed load-reserved of its address |
| Reservations.ReservationsFollow | source/instructions/atomictype.cpp:156-191 | The reserved addresses are those that the history of load-reserveds and store-conditionals leaves reserved; nothing else touches them |
| Reservations.HeldMeans | source/instructions/atomictype.cpp:156-191 | A history leaves an address reserved if and only if it holds a load-reserved of it without a later store-conditional, or it was reserved before and never consumed |
| Reservations.ReservedBetween | source/instructions/atomictype.cpp:347-382 | After every run: a store-conditional that succeeds, an earlier one to the same address being in the history of the run, has a load-reserved of it after that one |
| Processor.CsrDefault | source/instructions/csrtypeinsn.cpp:203-211 | The default CSR handler on the objects |
| Processor.CsrSatp | source/instructions/csrtypeinsn.cpp:307-317 | The satp handler on the objects: raises under TVM, and writes and flushes all the same |
| Processor.CsrInstruction | source/instructions/csrtypeinsn.cpp:319-395 | The dispatch through the handler table |
| Processor.Fence | source/instructions/csrtypeinsn.cpp:179-187 | sfence.vma on the objects: flushes even when it raises |
| Processor.EnvironmentCall | source/instructions/csrtypeinsn.cpp:95-112 | ecall raises by mode |
| Processor.EnvironmentHandler | source/instructions/csrtypeinsn.cpp:36-93 | The dispatch of the privileged instructions |
| Processor.SystemHandler | source/instructions/csrtypeinsn.cpp:6-34 | The dispatch of the system opcode |
| System.SystemKeeps | source/instructions/csrtypeinsn.cpp:6-317 | No system instruction changes memory or reservations, one that raises has not moved pc, and the MMU goes on mirroring satp with a cache that is either unchanged or flushed |
| SystemResults.ViewMeans | source/csr.cpp:12-27 | Every bit read of every register: sstatus shows bits 1, 5, 6, 8, 13 to 16, 18, 19, 32, 33 and 63 of mstatus, sie and sip the bits of mie and mip set in mideleg, mstatus bit 33 as set |
| SystemResults.StoredMeans | source/csr.cpp:29-53 | Every bit after a store: one register changes, in the bits that the address can write, to those of the value |
| SystemResults.CsrAddressMeans | source/decoder.cpp:103-106 | The register is named by bits 31 to 20 |
| SystemResults.CsrExecutes | source/instructions/csrtypeinsn.cpp:203-236 | csrrw, csrrs, csrrc and their immediate forms, by funct3 and bit by bit: rd gets the old value and the register the operand, its union with the old value, or the old value without it; user mode may not access mstatus |
| SystemResults.CsrReads | source/instructions/csrtypeinsn.cpp:213-252 | The identity registers, misa and tdata1 are read only; so is cycle, whose change raises |
| SystemResults.SatpExecutes | source/instructions/csrtypeinsn.cpp:307-317 | satp besides sets up the MMU anew; under bit 20 of mstatus the instruction raises and does all this |
| SystemResults.MisaMeans | source/csr.cpp:6-10 | The bits of misa after reset |
| SystemResults.CallExecutes | source/instructions/csrtypeinsn.cpp:95-177 | The words 0x73, 0x00100073 and 0x10500073: ecall raises the exception of its mode with pc as data, ebreak a breakpoint, wfi does nothing |
| SystemResults.SretExecutes | source/instructions/csrtypeinsn.cpp:124-146 | 0x10200073: illegal in user mode and under bit 22 of mstatus; else the step ends at sepc in the mode of bit 8 with the fields of `Traps.SretFields` |
| SystemResults.MretExecutes | source/instructions/csrtypeinsn.cpp:148-170 | 0x30200073: illegal outside machine mode; else the step ends at mepc in the mode of bits 12 and 11 with the fields of `Traps.MretFields` |
| SystemResults.FenceExecutes | source/instructions/csrtypeinsn.cpp:179-187 | sfence.vma sets up the MMU anew, and raises under bit 20 of mstatus and in user mode |
| SystemResults.EnvironmentTraps | source/instructions/csrtypeinsn.cpp:36-93 | The other words of this kind are illegal |
| Processor.Execute32 | source/cpu.cpp:236-307 | Dispatch of 32-bit instructions on the objects; what each leaves in registers and memory is in `Execution`, `AtomicResults` and `SystemResults` |
| Processor.FetchAndExecute | source/cpu.cpp:173-215 | Fetch and execution of one instruction on the objects |
| Processor.Loop | source/cpu.cpp:117-159 | One step of the hart on the objects is `Machine.Step` |
| Machine.TrapStepStoresNothing | source/cpu.cpp:137-155 | A step that ends in an exception changes no byte of data: memory gains only A and D bits in leaf PTEs |
| TrapMarks.TrapStepWritesLeaves | source/cpu.cpp:137-155 | Whatever software has stored, without any condition on tables or cache: a step that ends in an exception has written only words that the walk of a cached page, or a walk of its own, read as leaf PTEs |
| Machine.EpcIsFaultingPc | source/cpu.cpp:137-155 | The saved epc is the address of the instruction that trapped, and the cause is its exception |
| Machine.InterruptEpc | source/cpu.cpp:123-135 | When an interrupt is taken epc is the address of the instruction not yet executed |
| Machine.RunSettled | source/mmu.cpp:64-75 | In every reachable state no exception is left pending and the MMU mirrors satp |
| Invariants.RunSound | source/mmu.cpp:131-147 | In every reachable state of a machine whose executed stores, those of AMOs and of store-conditionals with a reservation included, overlap no table of a cached page, every filled entry is current under the root that mirrors satp |
| Invariants.StoreSound | source/mmu.cpp:52-62 | A store apart from the walks of cached pages keeps the cache coherent |
| BlockDevice.VirtioBlkDevice.Tick | source/peripherals/virtio.cpp:203-215 | A tick on the device object: a due request is transferred, the interrupt bit set, the notification reset, the clock advanced; the hart changes as `BlockDevice.ServedIn` says |
| BlockDevice.VirtioBlkDevice.AccessDisk | source/peripherals/virtio.cpp:51-91 | The request found through the rings is transferred between image array and RAM, completed and counted; every access outside RAM raises in the hart |
| BlockDevice.ServedMeans | source/peripherals/virtio.cpp:51-91 | A request changes of the hart the memory, as `Virtio.Transfer` says, and the exception, which it raises if and only if it touches an address outside RAM |
| BlockDevice.VirtioBlkDevice.ReadRequest | source/peripherals/virtio.cpp:53-67 | The chain of three descriptors read from memory is the request; its loads outside RAM give 0 and raise; `DiskRequests.RequestMeans` says what it is in terms of the bytes posted |
| BlockDevice.VirtioBlkDevice.CopyIn | source/peripherals/virtio.cpp:69-75 | The write loop puts the buffer in the image and touches no other byte of it; its loads outside RAM give 0 and raise |
| BlockDevice.VirtioBlkDevice.CopyOut | source/peripherals/virtio.cpp:76-84 | The read loop stores the image bytes one by one in the buffer; its stores outside RAM store nothing and raise |
| BlockDevice.VirtioBlkDevice.Complete | source/peripherals/virtio.cpp:86-90 | Status byte, used slot and used index, each raising if it lies outside RAM |
| BlockDevice.VirtioBlkDevice.LoadDescriptor | source/peripherals/virtio.cpp:40-49 | A descriptor is read field by field, each load raising if it lies outside RAM |
| BlockDevice.VirtioBlkDevice.Store | source/peripherals/virtio.cpp:130-201 | Register stores: queue layout, notification, acknowledgement, reset |
| BlockDevice.VirtioBlkDevice.Update | source/peripherals/virtio.cpp:32-38 | The ring addresses |
| BlockDevice.OnlyNotifyNotifies | source/peripherals/virtio.cpp:130-201 | Only a store to queue_notify touches the notification |
| BlockDevice.TicksAreTicks | source/peripherals/virtio.cpp:203-215 | A tick that serves a request moves the notification registers like any other tick |
| Virtio.ServedOnTick501 | source/peripherals/virtio.cpp:175-215 | Over every history a tick serves a request if and only if it is the 501st after a notification that is not the reset marker and was not superseded; the clock may wrap |
| Virtio.InvHolds | source/peripherals/virtio.cpp:203-215 | While a notification is pending the clock lies at most 500 ticks past it |
| Virtio.RingLayout | source/peripherals/virtio.cpp:32-38 | The parts of the queue do not overlap, and the used ring is where section 2.6.2 of Virtio 1.1 has it if and only if the available ring ends neither at a multiple of the alignment nor one byte before one |
| Virtio.LegacyQueues | source/peripherals/virtio.cpp:32-38 | So it is for every page-aligned queue of a power-of-two size up to 1024 |
| Virtio.AlignedUp | source/helper.cpp:129-132 | align_up gives the least multiple not below the value |
| Virtio.WriteRequest | source/peripherals/virtio.cpp:69-75 | A write request changes exactly its range of the image, to the buffer's bytes |
| Virtio.ReadRequest | source/peripherals/virtio.cpp:76-84 | A read request leaves the image's bytes in its buffer, which its completion does not disturb |
| Virtio.WriteThenRead | source/peripherals/virtio.cpp:51-91 | A write request then a read request of the same sectors puts the written bytes in the read buffer |
| Virtio.UsedIndexAdvances | source/peripherals/virtio.cpp:86-90 | A request leaves the device's index plus one, modulo 2^16, in the used index in memory, whatever it held |
| DiskRequests.RequestMeans | source/peripherals/virtio.cpp:40-69 | The request is the one posted in memory: the index of the available ring at 2, its entry at 4 + 2(idx mod num), descriptors of 16 bytes with address at 0, length at 8 and next at 14, header with type at 0 and sector at 8; it writes to the disk if and only if the type is 1 |
| DiskRequests.WriteIsDone | source/peripherals/virtio.cpp:69-75 | On the tick 500 after the notification a posted request of type 1 leaves the bytes of its buffer in the image from sector times 512 on, and every other byte of the image as it was |
| DiskRequests.ReadIsDone | source/peripherals/virtio.cpp:76-84 | A posted request of another type leaves those bytes of the image in its buffer, and the image as it was |
| DiskRequests.RequestEnds | source/peripherals/virtio.cpp:86-90 | Afterwards the status byte is 0, the entry 4 + 8(id mod num) of the used ring holds the number of the first descriptor, and the used index at 2 is one more, modulo 2^16 |
| DiskRequests.TickRegisters | source/peripherals/virtio.cpp:203-215 | What a tick does to the registers of the device, serving a request or not |
| DiskRequests.RequestRaises | source/peripherals/virtio.cpp:51-91 | The tick raises an exception in the hart if and only if one of the addresses of the posted request is outside RAM |
| DiskRequests.QueueIsLaidOut | source/peripherals/virtio.cpp:130-179 | Stores to 0x28, 0x38, 0x3c, 0x40 and 0x50 in turn lay the queue out from page number times page size, modulo 2^32, and start the wait of the notification |
| DiskRequests.AcknowledgeAndStatus | source/peripherals/virtio.cpp:180-196 | Stores to 0x64 and 0x70: acknowledgement, status, reset, and laying out the queue again |
| DiskHistory.ImageIsLastWritten | source/peripherals/virtio.cpp:51-91 | After every history of register stores, ticks and changes of memory each byte of the image is that of the last write request served to it, or the one it started with |
| DiskHistory.ReadsLastWritten | source/peripherals/virtio.cpp:51-91 | A read request served after any history leaves those bytes in its buffer |
| DiskHistory.TickServes | source/peripherals/virtio.cpp:130-215 | After every history a tick serves a request if and only if it is the 501st after a live notification, register stores and served requests in between notwithstanding |
| DiskHistory.IdCounts | source/peripherals/virtio.cpp:26-91 | The device's index is the number of requests served since the last reset, modulo 2^16 |
| DiskHistory.UsedIndexCounts | source/peripherals/virtio.cpp:86-90 | A request leaves that number, itself included, in the used index in memory |

## Left out

- Floating point: its instructions, compressed loads and stores, and fcsr, fflags and frm. A step that meets one has no result in the model (`Machine.Step` is None), and every statement about steps and runs is about those without one.
- The count of `sra` from 32 on, the zero divisors of `remw` and `remuw`, and the division of -2^63 by -1 are undefined in the source; a step that meets one has no result either.
- Register shifts by 64 or more and the unmasked count of `srai` are undefined in the source; the model uses the low six bits of the count, as the ISA does.
- `Decoder::imm_u` is used by a debugging dump only; lui and auipc mask the word themselves.
- The bus holds RAM as its only device when the hart uses it. CLINT, PLIC, GPU, terminal, system controller, and device-to-device transfers are not part of this model. The interrupt line of disk and GPU is a parameter of the poll; the update of the PLIC that goes with it is left out.
- An access that starts in RAM and runs past its end is undefined in the source; the model loads 0 and stores nothing.
- A request of the block device with a queue size of zero or sectors outside the image, and a queue laid out with an alignment of zero, are undefined in the source. Its configuration and feature registers and its register reads are left out, as is conformance of the available index.
- The hart's step and the ticks of the devices are separate here; the source ticks the devices at the start of every step.
- The shifts of get_vpn, get_ppn and of the composition loops are spelled out level by level, and their field arrays are sequences.
- Lru.RunLru: cache ages are 64-bit counters, and after more than 2^64 - 2^32 lookups since a flush the age of an empty slot wraps.
- Base integer instructions other than the compressed ones are computed as effects (`Isa.Effect32`) and carried out by one method, `Processor.Perform`, instead of one method each.
- Signed overflow in `mul` and address arithmetic wraps modulo 2^64.
- File loading, the device tree, dumps, threads and the test suite are I/O.
- Tlb.RunRefines: stores that overlap the page tables of cached pages, and a mapped page 0 while a slot is empty, are excluded; a coherent cache cannot survive the first without a fence, and `Tlb.ServeRefines` covers the second exactly.
- Builds.RunsAlike: excludes the same two cases, for the same reason.
- Interrupts.RunStaysLawful: assumes that software never writes the reserved value 2 to MPP; `Interrupts.PrivilegeStep` shows that this is the only way to lose the property.
- Privilege.RunPrivilege: assumes the same of the instructions a run executes; `Privilege.StepLawful` shows that nothing else loses it.
- TrapRuns.RunKeeps: system instructions outside the stretches in which a handler has its registers saved leave the mode, TSR, the enable bits and the live trap registers alone; and the machine timer, which is never delegated, is a machine trap.
- TrapMarks.TrapStepWritesLeaves: about the build with the cache; the one without holds no stale copies, and `Machine.TrapStepStoresNothing` applies to it.
- Atomics.AmoException: for a cache that agrees with the tables; a stale copy may deny a load and not the store after it.
- Translations.TranslationMeans: for a cache that agrees with the tables, which `Invariants.RunSound` shows of every reachable one, and not for page 0 with a slot empty, which `Translations.PageZeroTranslation` covers.
- Execution.LoadExecutes: says nothing of the value of an access that starts in RAM and runs past its end, which is undefined in the source.
- Execution.StoreExecutes: the same of stores.
- AtomicResults.AmoExecutes: for a cache that agrees with the tables, as `Translations.TranslationMeans`.
- DiskRequests.ReadIsDone: as for `Virtio.WriteThenRead`, the buffer overlaps neither the status byte nor the used ring.
- DiskRequests.RequestEnds: the status byte, the entry and the index of the used ring lie in memory and apart from each other.
- BlockDevice.VirtioBlkDevice.Store: stores to the configuration and feature registers have no effect here.
- DiskHistory.ReadsLastWritten: as for `Virtio.WriteThenRead`, the read buffer overlaps neither the status byte nor the used ring.
- Invariants.RunSound: as for `Tlb.RunRefines`, stores that overlap the tables of cached pages are excluded.
- Emulator.Cpu.BusLoad: RAM is the only device on the bus.
- Emulator.Cpu.BusStore: RAM is the only device on the bus.
- TrapHandling.GetPendingInterrupt: the update of the PLIC that goes with the device line is not part of this model.
- Processor.Quadrant0: c.fld and c.fsd have no result, as floating point is left out.
- Processor.Quadrant2: c.fldsp and c.fsdsp have no result, as floating point is left out.
- Processor.Execute16: the same floating-point loads and stores have no result.
- Processor.Execute32: floating-point opcodes have no result.
- Processor.CsrInstruction: accesses to fcsr, fflags and frm have no result.
- Processor.SystemHandler: accesses to fcsr, fflags and frm have no result.
- System.SystemKeeps: says nothing of the handlers of fcsr, fflags and frm.
- Processor.FetchAndExecute: instructions without a result have none here.
- Processor.Loop: the devices do not tick, and instructions without a result have none here.
- Virtio.WriteThenRead: the read buffer overlaps neither the status byte nor the used ring; one that did would be overwritten by the completion.
