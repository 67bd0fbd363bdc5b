# Verified model of the SECOS teaching kernel (x86-32)

The project models the hard core of a small x86-32 kernel and proves what its parts promise each other:

* **The interrupt path** (`Machine`, `Processor`, `Stack`, `Paths`, `Levels`, `Steps`, `Runs`, `Guarantees`,
  `Consequences`, `Progress`, `Completion`, `Execution`, `Acceptance`, `Service`, `Boot`). The 256 stubs, the end-of-interrupt code, `idt_common`,
  `resume_from_intr` and the system call routine are instruction lists, executed one instruction at a time
  over flat byte memory (`Machine.Exec`). The kernel is a transition system: the interrupted program or the
  C handler moves, the path executes an instruction, a fault, an NMI, an external request or a software
  interrupt arrives, at any instruction boundary. Hardware delivery, `IRET` and privilege follow the Intel
  SDM, volume 3A, sections 6.11 to 6.13. Each interruption in progress is a level; `Levels.Inv` says what holds at every
  position of a level, and a run invariant (`Guarantees.Sound`) holds in every reachable state. Statements
  about runs quantify over all event sequences, so interruptions nest arbitrarily. `Completion` shows which
  interruptions can end and that those do. `Acceptance` says, in numbers, which events are taken and what the
  processor does with them; `Service` follows each kind of event to its handler and back. `Processor.Cpu` is the same processor with registers and memory
  updated in place, and `Execution` runs the path on it.
* **The 8259A pair** (`Pic`, `Controllers`): initialisation, acknowledge cycles (spurious ones included), end
  of interrupt, and the in-service registers over whole runs.
* **Descriptors** (`Descriptors`): gate and segment layouts, `build_int_desc`, `intr_init`, `update_idt`, the
  GDT and TSS of the exercises in memory, the GDT listing, code placement under `.align 16`.
* **String operations** (`StringOps`): `memset`, `memcpy`, `strlen`, `strchr` over repeated string
  instructions that obey the direction flag.
* **Paging** (`Paging`): the tables the paging exercise builds in memory, and the two-level walk (SDM volume
  3A, section 4.3) of all 2^32 addresses over the result.
* **The formatter and the serial line** (`Numerals`, `Format`, `Directives`, `Print`, `Vsnprintf`, `Serial`): `__vsnprintf`
  refines an unbounded rendering that is then cut; the rendering has its own laws.

Where the code does something its documentation does not say, the model follows the code:

* Clearing a page from the second directory entry on (`tp4/tp.c:36`) also clears the first entry of the
  first page table, so virtual page 0 is not mapped although the exercise asks for identity.
* `__vsnprintf` stores a NUL even when told the buffer has length 0.
* `%d` of the least 64-bit value is not its numeral, because it is its own negative (the C standard leaves the
  negation undefined; the model takes two's complement).
* `strchr` reports no match when the only match is the last byte.
* `memcpy` copies forward. It is a copy for overlapping ranges exactly under the condition of
  `StringOps.CopyExactly`.
* An NMI that hits a hardware interrupt before its acknowledgement enters `idt_common` with a line still in
  service (`Progress.NmiBeforeAcknowledge`); that is the only way.
* A TSS descriptor gets the size of the TSS as its limit, so it spans one byte more.
* In `tp5`, `esp0` and the user's first stack pointer are neighbouring values of EBP, so user pushes may lie on
  the kernel stack. The theorems speak of user memory outside the kernel stack region below `esp0`.

Parameters of the model: the addresses the linker chooses and the stack region (`Machine.Env`), the status
flags left by an addition, what C handlers and interrupted programs do within the limits of
`Machine.OwnMove` (they keep to their part of the stack, to their own data, to their ring, and handlers leave
IF and the controllers alone), the argument words of a format call, the strings pointers refer to, and the
readiness of the serial line.

## Model

| member | source | states |
|---|---|---|
| Pic.Ports.PicInit | kernel/core/pic.c:4-54 | The eight writes, port and value, in order; from any state of the controllers they leave vector bases 32 and 40, the slave cascaded on line 2, 8086 mode, software end-of-interrupt, nothing masked, in-service registers untouched. |
| Pic.EoiUndoesAcknowledge | kernel/core/idt.s:13-23 | On configured controllers with nothing in service, a request comes with the vector of its line (32 + n, 40 + n, spurious 39 and 47) and its bits in service; writing 0x20 to port 0x20, after port 0xa0 for vectors from 40, restores both controllers. |
| Pic.EoiEndsHighest | kernel/include/pic.h:54-62 | With several lines in service, 0x20 ends the one with the lowest number and changes nothing else. |
| Descriptors.GateLayout | kernel/include/intr.h:68-86 | The fields of an interrupt descriptor and its two raw dwords determine each other. |
| Descriptors.GateWords | kernel/include/intr.h:68-86 | Where each field lies in the two dwords: type in bits 8 to 11, level in 13 and 14, present bit 15, offsets and selector in the halves. |
| Descriptors.BuildIntDesc | kernel/include/intr.h:102-110 | The descriptor becomes the dwords 0x10000 cs + low offset and high offset + 0x8e00: a present ring 0 interrupt gate; no other descriptor changes. |
| Descriptors.IntrInit | kernel/core/intr.c:10-25 | After the loop the gate of every vector v is, dword by dword, a present ring 0 interrupt gate into selector 8 at trampoline + 16 v. |
| Descriptors.UpdateIdt | tp5/tp.c:129-135 | Gate 48 leads to the system call routine with rights 0xee00, open to ring 3; all others are unchanged. |
| Descriptors.AlignedPlacement | kernel/core/idt.s:54-196 | Non-empty blocks of at most 16 bytes, each aligned to 16, lie exactly 16 bytes apart. |
| Descriptors.SegLayout | kernel/include/segmem.h:85-107 | Packing a segment descriptor into its dwords and unpacking gives it back. |
| Descriptors.SegWords | kernel/include/segmem.h:85-107 | Where each field lies in the two dwords, as a sum of powers of two. |
| Descriptors.SegBits | kernel/include/segmem.h:90-101 | Bits 12 to 15 of the second dword are the system bit, the level and present, bits 20 to 23 AVL, long mode, default and granularity. |
| Descriptors.RawSegmentIs | tp3 sol/tp.c:23-36 | A descriptor whose raw value is a 16-bit number has it as its low limit and zero everywhere else. |
| Descriptors.SegAtWords | kernel/include/segmem.h:85-107 | The descriptor read at an address is the one whose two dwords lie there. |
| Descriptors.PrintGdtContent | tp1/tp.c:10-37 | The walk lists ceil(limit/8) descriptors, which is n for limit 8n-1, each with its base, the last byte the CPU would compute modulo 2^32, and every other column as the field of that name. |
| Descriptors.StoreSegment | kernel/include/segmem.h:85-107 | The two dwords in memory, as a sum over the fields, which read back as the descriptor; no other byte changes. |
| Descriptors.InitGdt | tp3 sol/tp.c:50-62 | The twelve dwords in memory: null, code 0x00cf9a00 and data 0x00cf9200 for ring 0, 0x00cffa00 and 0x00cff200 for ring 3 over 0xffff, the TSS's by its address, with the AVL bit of code as tp5 sets it; no other byte changes. |
| Descriptors.SelectorsFit | tp3 sol/tp.c:6-16 | Each selector the kernel uses leads, in that table, to code or data of the selector's own level. |
| Descriptors.InitTask | tp3 sol/tp.c:88-91 | EBP is at offset 4 of the TSS in memory and 16 at offset 8, and that is the stack the CPU finds for ring 0 through selector 40 and the descriptor there. |
| Descriptors.ListingOfExercise | tp1/tp.c:10-37 | The five lines the listing shows for that table, column by column: code and data from 0 to 0xffffffff at levels 0 and 3, and the TSS from its address to one byte beyond its end. |
| Descriptors.FlatEncoding | tp3 sol/tp.c:21-32 | The flat descriptor has base 0 and covers all 2^32 bytes at the requested level and type. |
| Descriptors.TssEncoding | tp3 sol/tp.c:34-43 | The TSS descriptor has the TSS as base, its size as limit, level 0. |
| Paths.Listing | kernel/core/idt.s:13-196 | The instructions of the 256 vectors, written out with their numbers: which stubs push -1, the port writes, the order of everything. |
| Paths.SyscallListing | tp5/tp.c:20-27 | The instructions of the system call routine after its prologue. |
| Paths.PathToCall | kernel/core/idt.s:13-42 | For every program, the words on the stack at the call are the saved registers, the stub's words and the frame; EAX points at them and every other register is the interrupted one, also after the end-of-interrupt code. |
| Levels.DeliverInv | kernel/core/idt.s:28-38 | Hardware delivery pushes the frame on the right stack, disables interrupts and lands on the first instruction of the vector's program, with the interrupted state recoverable. |
| Steps.StepKeeps | kernel/core/idt.s:13-46 | Each instruction of the path but the last keeps the invariant of the interruption it belongs to. |
| Steps.StepReturns | kernel/core/idt.s:44-47 | The IRET gives the interrupted program its registers, EIP, CS, EFLAGS, ESP and SS back and keeps the protected memory. |
| Levels.InvStable | kernel/core/idt.s:25-47 | An interruption suspended anywhere does not notice a transparent one on top of it. |
| Guarantees.InterruptSound | kernel/core/idt.s:25-38 | Any accepted fault, NMI, request or software interrupt pushes one level that saves the interrupted state, in kernel code, with its frame at the top of the right stack. |
| Guarantees.RunSound | kernel/core/idt.s:13-47 | Every run keeps the kernel invariant, and control never leaves the known code. |
| Guarantees.InterruptionIsTransparent | kernel/core/idt.s:13-47 | For every event that interrupts any program or handler or the path itself, and every run until that interruption is over, registers, EIP, CS, EFLAGS, ESP, SS and protected memory are as before and all suspended interruptions are where they were. |
| Progress.PathNeverFaults | kernel/core/idt.s:13-47 | With 32 bytes of stack left every instruction of the path executes; only the handler can hold a run up. |
| Consequences.HandlerSees | kernel/include/intr.h:41-61 | While intr_hdlr runs, each field of its context holds the interrupted register (ESP: the address of the nr field), the vector at 32, at 36 the CPU's code for 8, 10 to 14 and 17 and -1 otherwise, and from 40 EIP, CS, EFLAGS, with ESP and SS on a ring change. |
| Consequences.CallPassesContext | kernel/core/idt.s:39-42 | At the call EAX is the address of the context and no other register has changed. |
| Consequences.SyscallHandlerSees | tp5/tp.c:20-34 | syscall_handler finds the caller's registers at the same gpr offsets although no number and no error word precede the frame. |
| Consequences.SystemCallRoundTrip | tp5/tp.c:20-44 | INT 48 from ring 3 comes back after the instruction with all registers, ESP, EFLAGS, CS and SS preserved, and user memory off the kernel stack and the handlers' data preserved. |
| Consequences.ExceptionNameInBounds | kernel/core/excp.c:9-34 | In every run the vector with which the exception handler is reached is below 20, the size of the name table. |
| Consequences.IntrHdlr | kernel/core/intr.c:57-62 | Wherever in a run a handler is entered, the dispatch reads the vector of its interruption, which is below 20 or at least 32; the name is that vector's entry of the table of 20, and it comes back exactly for 2 and from 32 on. |
| Consequences.RingDiscipline | tp5/tp.c:123-152 | In every run CPL, RPL of CS and RPL of SS agree; ring 3 runs only when no interruption is in progress, and interruptions run in ring 0 with interrupts off. |
| Consequences.EntryFromRing3 | tp5/tp.c:123-134 | Every entry from ring 3 starts at the top of the TSS stack with the TSS's SS, so the kernel stack does not grow from entry to entry; INT n reaches the system call routine for n = 48 only and is a protection fault naming gate n otherwise. |
| Consequences.TaskStart | tp5/tp.c:141-152 | The hand-made frame and IRET land in ring 3 at userland with EBP as stack pointer and everything else unchanged. |
| Consequences.RingsFromTaskStart | tp5/tp.c:138-152 | In every run after that IRET the rings agree, ring 3 runs exactly when no interruption is in progress, and interruptions run with interrupts off. |
| Progress.AcknowledgedAtCommon | kernel/core/idt.s:13-42 | On entry to idt_common both in-service registers are empty unless an outer request of the master is at position 5 of its code or before, or an outer request of the slave, spurious or not, at position 7 or before; and then they are not. |
| Progress.AcknowledgedInRun | kernel/core/idt.s:13-42 | In every run without NMIs and exceptions both in-service registers are empty at every entry to idt_common. |
| Progress.NmiBeforeAcknowledge | kernel/core/idt.s:174-187 | An NMI right after a request does enter idt_common with the line in service. |
| Boot.VectorRouting | kernel/core/idt.s:54-196 | Whatever encodings the assembler picks, the gate of v holds the address where the stub of v is placed, and that stub pushes v or is the bare IRET of 20..31. |
| Boot.Start | kernel/core/start.c:18-27 | Initialisation establishes the surroundings all run theorems assume, the controllers' configuration, and the IDT, GDT and TSS dword by dword. |
| Processor.Cpu.Execute | kernel/core/idt.s:13-47 | Executing an instruction on registers and memory in place gives the state the transition system computes. |
| Processor.Cpu.Interrupt | kernel/core/idt.s:25-38 | In-place hardware delivery gives the state the transition system computes. |
| Execution.EnterHandler | kernel/core/idt.s:13-42 | In place, from the first instruction with 32 bytes of stack for each, every instruction executes and the processor is in the handler of the interruption, in the state that many steps of the transition system lead to, nothing below it having moved. |
| Execution.LeaveHandler | kernel/core/idt.s:44-47 | In place, from the handler's return, every instruction executes and the processor is as the interruption found it: registers, EIP, CS, EFLAGS, ESP, SS and protected memory. |
| Completion.Completes | kernel/core/idt.s:13-47 | Wherever an interruption with a returning vector stands, with stack to reach its handler, there are steps of the path, after one move of a handler that has yet to clean up its stack, that end it. |
| Completion.NeverEnds | kernel/core/excp.c:36-64 | No sequence of events ends an interruption by a vector below 20 other than 2. |
| Completion.InterruptionEnds | kernel/core/idt.s:13-47 | Every event that brings a returning vector can be followed by steps of the path alone that end in the interrupted state, so the transparency theorem speaks of runs that exist. |
| Completion.AllComplete | kernel/core/idt.s:13-47 | From every reachable state whose interruptions all have vector 2 or one from 20 on there is a run that finishes them all and gives the program below them its state back. |
| Machine.GateFlagsExactly | kernel/core/idt.s:25-38 | Delivery clears bits 8, 9, 14, 16 and 17 of EFLAGS (TF, IF, NT, RF, VM) and no other. |
| Acceptance.FaultTaken | kernel/core/idt.s:55-166 | An exception is taken if and only if its vector is below 20, it has a code exactly for 8, 10 to 14 and 17, and the frame fits; then control is at trampoline + 16 v in segment 8, with the words of the frame in memory. |
| Acceptance.RequestTaken | kernel/core/idt.s:174-188 | A request, spurious or not, is taken if and only if IF is set and the frame fits, with the vector of its line, which it puts in service. |
| Acceptance.SoftIntTaken | tp5/tp.c:129-135 | INT n between interruptions is taken if and only if the frame fits: from ring 3 through gate 48 only, any other n being a protection fault with code 8 n + 2; from ring 0 through every gate. |
| Acceptance.MoveTaken | kernel/core/intr.c:27-63 | Which moves of a program or a handler are possible, exactly. |
| Acceptance.ReturnTaken | kernel/core/idt.s:41-44 | The handler's return is taken if and only if ESP is as at the call and the vector is 2 or from 32 on. |
| Acceptance.IretTaken | kernel/core/idt.s:47 | IRET is refused exactly when it would lead to an inner ring, and takes ESP and SS off the stack exactly when it leads to an outer one. |
| Service.FaultReachesHandler | kernel/core/idt.s:55-166 | Every exception gets to its handler, which finds its vector at 32 from EAX and its code, or -1 when it has none, at 36. |
| Service.RequestReachesHandler | kernel/core/idt.s:174-188 | Every request gets to intr_hdlr with its vector and -1, and with nothing left in service. |
| Service.SoftIntReachesHandler | kernel/core/idt.s:190-195 | INT n from ring 0 gets to intr_hdlr with n and -1, to resume after the instruction. |
| Service.RefusedReachesHandler | tp5/tp.c:43-46 | INT n from ring 3 for a closed gate gets to intr_hdlr with vector 13 and code 8 n + 2. |
| Service.SystemCallReachesHandler | tp5/tp.c:20-34 | INT 48 from ring 3 is taken and gets to syscall_handler, which finds the caller's EAX at 28 and ESI at 4 from its argument. |
| Service.EndsExactly | kernel/core/excp.c:36-64 | An event that enters through vector v can be followed to the end of the interruption if and only if v is 2 or from 20 on. |
| Service.NmiServed | kernel/core/excp.c:38-40 | An NMI at any moment is taken and there is a run that ends it with everything as before. |
| Service.RequestServed | kernel/core/idt.s:13-47 | A request is taken and there is a run that ends it with everything as before and nothing in service. |
| Service.SystemCallServed | tp5/tp.c:20-44 | INT 48 from ring 3 is taken and there is a run that comes back after the instruction, registers, ESP, EFLAGS, CS, SS and user memory preserved. |
| StringOps.SetFills | kernel/include/string.h:50-73 | Dword stores plus a byte tail fill exactly the range with the byte, for every size. |
| StringOps.CopyExactly | kernel/include/string.h:75-99 | Dword moves plus a byte tail equal a simultaneous copy for every memory content if and only if dst <= src, or the ranges do not overlap, or the size is 4. |
| StringOps.ScanFindsFirst | kernel/include/string.h:33-37 | A forward scan stops after the first match with the remaining count left, or at the end with 0. |
| StringOps.StringUnit.Memset | kernel/include/string.h:50-73 | For every direction flag: the range is filled, every other byte and EFLAGS unchanged, dst returned. |
| StringOps.StringUnit.Memcpy | kernel/include/string.h:75-99 | For every direction flag: a simultaneous copy under the exact condition, EFLAGS unchanged, dst returned. |
| StringOps.StringUnit.Strlen | kernel/include/string.h:114-122 | The least index of a NUL. |
| StringOps.StringUnit.Strchr | kernel/include/string.h:101-112 | The first match when there is one among all bytes but the last, and NULL otherwise. |
| Paging.WalkByBits | kernel/include/pagemem.h:147-151 | What the CPU does with the two entries, bit by bit: present, writable and user in both, and the large page bit. |
| Paging.SetEntry | kernel/include/pagemem.h:147-151 | The dword in memory is the attributes with the present bit set plus 0x1000 times the frame number; every other byte is unchanged. |
| Paging.FillTable | tp4/tp.c:23-35 | The loop maps a table to 1024 consecutive frames and touches nothing else. |
| Paging.SecondClear | tp4/tp.c:36 | The second memset clears directory entries 1..1023 and entry 0 of the next table, nothing else. |
| Paging.Tp | tp4/tp.c:12-63 | All writes together leave the four tables in memory dword by dword, CR3 at 0x600000, and the rest of memory unchanged. |
| Paging.AddressMap | tp4/tp.c:12-63 | For every address the walk gives identity in [0x1000, 0x800000) except pages 0x700 and 0x7ff which go to frame 2, page 0xc0000 to the directory's frame, and not present everywhere else. |
| Paging.IdentityExactly | tp4/tp.c:22-39 | Below 8 MBytes identity holds if and only if the page is not 0, 0x700 or 0x7ff; page 0 is not present. |
| Paging.SelfMapWindow | tp4/tp.c:42-50 | A store of any word w at 0xc0000000 + 4k makes it directory entry k and leaves the walk of every address with another directory index unchanged. |
| Format.RenderConcat | kernel/core/print.c:178-279 | Rendering a concatenation is rendering the first format and then the second from the mode and argument it stopped at. |
| Format.TidyKept | kernel/core/print.c:178-279 | The 'long' flag is never set outside a conversion. |
| Format.SizeForgotten | kernel/core/print.c:272-278 | Outside a conversion the operand size of an earlier one has no effect on output or arguments. |
| Format.FormatsConcatenate | kernel/core/print.c:178-279 | A format that ends outside a conversion can be cut there: the rest is a format of its own on the remaining arguments. |
| Format.DigitsIgnored | kernel/core/print.c:256-258 | Removing the digits inside conversions changes neither output nor argument consumption. |
| Directives.OperandSizes | kernel/core/print.c:184-194 | No modifier or one l asks for 4 bytes, two for 8, h for 2, hh for 1. |
| Directives.ModifierSet | kernel/core/print.c:184-258 | What may stand between the percent sign and the conversion character: l, h and digits. |
| Directives.DigitTable | kernel/core/print.c:130-131 | The digits are 0 to 9 and a to f, and nothing else is one. |
| Directives.NumeralRead | kernel/core/print.c:80-105 | How the numerals below are read: the base to the power of the position, a minus sign in front. |
| Directives.SignedDirective | kernel/core/print.c:211-223 | %d and %i print the numeral of the operand's 8, 4, 2 or 1 low bytes read as two's complement, and take two words or one. |
| Directives.UnsignedDirective | kernel/core/print.c:225-238 | %u prints the numeral of the same bytes unsigned. |
| Directives.HexDirective | kernel/core/print.c:225-240 | %x prints them in base 16 without leading zeros. |
| Directives.LongSignedDirective | kernel/core/print.c:243-245 | %D prints two words as a signed 64-bit number. |
| Directives.LongHexDirective | kernel/core/print.c:246-248 | %X prints two words in base 16. |
| Directives.PointerDirective | kernel/core/print.c:251-254 | %p prints 0x and one word in base 16. |
| Directives.BinaryDirective | kernel/core/print.c:203-205 | %b prints the 32 bits of a word, highest first. |
| Directives.LongBinaryDirective | kernel/core/print.c:206-208 | %B prints the 64 bits of two words. |
| Directives.TextDirectives | kernel/core/print.c:197-262 | %s prints the string pointed to, %c the low byte as a character, %% a percent sign without taking an argument. |
| Directives.OtherDirective | kernel/core/print.c:265-267 | Any other character ends in a panic that names it. |
| Format.DecimalRoundTrip | kernel/core/print.c:80-105 | For signed 64-bit v the text of %d parses to v if and only if v is not -2^63, and has no leading zero. |
| Format.UnsignedRoundTrip | kernel/core/print.c:107-126 | For unsigned 64-bit v the text of %u parses to v and has no leading zero. |
| Format.HexRoundTrip | kernel/core/print.c:132-154 | Precision 1..16 gives exactly that many low digits, any other the shortest numeral; at most 16 digits. |
| Format.BinRoundTrip | kernel/core/print.c:68-78 | Binary output is the n low bits, most significant first. |
| Print.Buffer.Add | kernel/include/string.h:124-128 | Appending a character to a buffer holding a cut text gives the cut of the longer text; later characters are untouched. |
| Print.Buffer.AddBin | kernel/core/print.c:68-78 | The bit loop appends the binary text. |
| Print.Buffer.DecLoop | kernel/core/print.c:97-103 | The digit loop leaves the decimal digits in reverse and stays within the 24-byte scratch array for every value. |
| Print.Buffer.AddIdec | kernel/core/print.c:80-105 | Appends the signed decimal text. |
| Print.Buffer.AddUdec | kernel/core/print.c:107-126 | Appends the unsigned decimal text. |
| Print.Buffer.HexLoop | kernel/core/print.c:138-147 | The digit loop leaves the digits asked for in reverse and stays within the 16-byte scratch array. |
| Print.Buffer.AddHex | kernel/core/print.c:132-154 | Appends the hexadecimal text and returns the number of digits produced even when they do not fit. |
| Vsnprintf.AddConversion | kernel/core/print.c:196-267 | Each conversion character appends to the buffer the text Directives speaks of and consumes as many argument words; anything else is refused. |
| Vsnprintf.Vsnprintf | kernel/core/print.c:162-283 | The buffer ends up with the first min(length, len-1) characters of the rendering, a NUL, and its old contents after that; the count returned includes the NUL; an unsupported character panics. |
| Format.PlainText | kernel/core/print.c:272-278 | Text without a percent sign prints itself and takes no arguments. |
| Serial.Uart.Write | kernel/core/uart.c:80-112 | For every transmitter that is ready infinitely often, the loop ends having sent the bytes once, in order, each right after a poll that showed it empty. |
| Serial.Uart.Flush | kernel/core/uart.c:114-125 | Sixteen NULs go out, each right after a poll that showed the transmitter empty. |
| Vsnprintf.Panicked | kernel/core/print.c:9-22 | A panic over conversion character c sends its message with c in it and sixteen NULs. |
| Vsnprintf.Vprintf | kernel/core/print.c:48-55 | What is sent is the rendering cut at 1023 characters, without the NUL; if the rendering meets an unsupported character, the panic's message and NULs and nothing of the rendering. |

## Left out

- Boot.Start: does not model uart_init or the LGDT, LTR and segment register loads; the task register is the selector TASK.
- Levels.Inv: DS, ES, FS and GS are not modelled; the code neither saves nor changes them on this path.
- Machine.Exec: virtual-8086 mode, nested tasks and the RF flag are not modelled; a push below the stack region ends a run instead of faulting.
- Machine.OwnMove: ring 3 code writing the IDT, the GDT, the TSS or kernel code is not modelled; the system call exercise has no paging to prevent it.
- Machine.Step: double faults, machine checks that abort, and CPU-generated vectors 20 to 31 are not modelled; exceptions other than the NMI end in a panic.
- Consequences.HandlerSees: software interrupts for exceptions that carry an error code, taken in ring 0, are excluded because the CPU then pushes none.
- Paging.SelfMapWindow: accessed and dirty bits and stale TLB entries are not modelled.
- StringOps.StringUnit.Memset: ranges that wrap around the end of the address space are excluded, likewise for the other string operations.
- Vsnprintf.Vsnprintf: strings that are not terminated and buffers that overlap the format or its arguments are excluded.
- Execution.EnterHandler: what the handlers do in between is not run in place; they are moves of the transition system.
- Print.Buffer.AddStr: the NUL-terminated string is a value, not bytes in memory.
- The text panic prints, its halting loop and the stack trace: a panic is an outcome.
- UART set-up and receiving, timing of port accesses, priority rotation and special mask mode of the controllers: device configuration.
- The segmentation exercises beyond their descriptors, the Multiboot listing and memory probing of the first exercise: easy loops.
- Interrupts taken while __vsnprintf or the table set-up runs: covered by transparency for programs that keep to their own memory, and not repeated there.
