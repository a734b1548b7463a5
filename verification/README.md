# avr-emu: a model and its proofs

avr-emu is an emulator for 8-bit AVR machines with a GDB stub. This project models the machine (`instr.c`, `emu.h`, and
`emulate1` in `main.c`), the loop that drives it (`emulate` in `main.c`), and the debugger's side of that loop
(`gdbstub.c`), and proves what they do on every input, every run and every debugging session.

The machine is modelled twice. `Machine.Machine`, `FlagMasks`, `Emulator.Emulator`, `RegisterText.SetRegs` and
`PacketLoop.Stub` keep the program's own form: a memory buffer written in place, global flags, mask arithmetic, loops with
moving pointers. Each of their methods is proved against a function on values: `Cpu.Step` for one call of `emulate1`,
`Alu` for what the status flags mean in numbers, `Debugger.Loop` for the emulate loop, `PacketTurns.Turns` for the
packet reader. The theorems below are about those functions, and so about the methods.

The functions on values are held to descriptions that do not mention them. `Assembler` goes from an instruction to its
words, and `Opcodes.FetchIff` shows that the emulator's decoder is its inverse. The modules of laws say for every
instruction which registers, flags and cells one step changes and how, with bits of bytes, literal addresses and exact
numbers only. `Breakpoints` does the same for the commands of the debugger, and `Wire` for the texts on the wire.

| file | what it holds |
|---|---|
| `Bytes`, `Isa`, `Alu`, `Cpu` | bytes and flag bits, the decode table and instructions, flags in numbers, the step function |
| `Assembler`, `Fields`, `OpcodeRows`, `Opcodes` | the opcodes of the AVR Instruction Set Manual bit by bit, and the proof that decoding inverts them |
| `Laws`, `DataLaws`, `IndirectLaws`, `ControlLaws` | what one step of each instruction does, in the manual's terms and at literal addresses |
| `FlagMasks`, `Machine` | the flag helpers and the machine as the program runs them |
| `Kinds`, `DecodeTable` | groups of handlers; every word belongs to at most one row of the table |
| `Frame`, `Steps`, `Aborts`, `Trace`, `SignFlag` | what a step may write, counting and skipping, when a step aborts, the trace, S = N xor V |
| `Reads`, `Lockstep`, `Isolation` | what a step looks at, two runs on different memories, the 64 KiB model and the memory above it |
| `Numbers`, `Chains`, `Programs` | numbers of any length, the instruction chains that compute on them, and such chains as they lie in flash |
| `CallStack`, `Pointers`, `Transfers` | the stack as a list of return addresses; post-increment and pre-decrement; LDS, STS and ELPM blocks |
| `Debugger`, `Emulator`, `Words`, `ReverseDrift` | stepping, reverse stepping by replay, the limit, and when the past comes back |
| `Breakpoints` | where the loop stops after a continue or a step |
| `RegisterText`, `Framing`, `Packets`, `Wire` | the GDB register block, packets, the commands they carry, and the texts themselves |
| `PacketTurns`, `PacketLoop`, `PacketSession` | the packet loop turn by turn, as the stub runs it, and whole sessions driven by packets |

`dafny verify dfyconfig.toml` checks the whole project.

In the table under "Model" the main results come first, then the methods in the program's own form that they rest on.
Handlers without a method row of their own, such as MOV or IN, are covered by `Machine.Machine.Execute`, which is proved
for every one of them; what MOV or IN then does is a law.

## Where the code differs from what it says

The code is followed; these are the places where it disagrees with a manual, with itself, or with what its name suggests.

* CP, CPC, SUB and SBC never set Z, they only keep or clear it (instr.c:411-414); the AVR Instruction Set Manual makes Z
  sticky for CPC and SBC only. CPI, SUBI and SBCI set Z plainly. So BREQ after a comparison decides equality exactly when
  Z was set before it or the numbers differ (`Chains.EqualDecidedIff`, `Programs.EqualProgramIff`); `Programs.EqualMissed`
  is CP r0,r0 with Z clear.
* `popbyte` does not truncate `sp + 1`, so a pop from SP = 0xffff reads address 0x10000, which the 64 KiB model should
  not have. `Isolation.StepIsolatedIff` and `Isolation.RunIsolatedIff` show that this is the only leak, and exactly when
  it happens; `Isolation.PopLeaks` is an instance.
* `init` does not clear data memory, so a reverse step replays on the memory the forward run left behind. It need not
  recover the past (`ReverseDrift.Drift`), and it need not come back at all: the replay can abort although the forward run
  did not, and the emulator exits (`ReverseDrift.Crash`, `ReverseDrift.ReverseCrashes`). `Debugger.ReverseStep` says when
  control comes back; `ReverseDrift.ReverseExactIff` and `ReverseDrift.ReverseRecovers` say when the past does.
* `instr_lds` has no 256-byte mask while `instr_sts` has one, reached only in the 64 KiB model. `Transfers.StoreLoadIff`
  says when a byte stored by STS comes back by LDS, which a store to RAMPD itself can also prevent.
* ELPM with Z+ increments Z and leaves RAMPZ alone, so a block read is consecutive exactly when it stays within 64 KiB
  (`Transfers.BlockConsecutiveIff`).
* The register block carries 22 bits of the program counter; a wider one does not survive the round trip
  (`RegisterText.RoundTripIff`).
* The checksum stops at a NUL, so data with a NUL in it is summed and dispatched only up to there, and some damage goes
  unseen (`Framing.DamagePassesIff`, `Framing.DamageExamples`).
* The packet loop has no exit for a packet that has not arrived in full; `PacketTurns.NeverEndsIff`
  says exactly when it never ends, and `PacketTurns.HalfRequestSpins` is the buffer `$g`.

## Model

| member | source | states |
|---|---|---|
| `Machine.Machine.Emulate1` | main.c:249-343 | one call of emulate1 is one step of `Cpu.Step` and writes the trace of that step; the restart happens at most once |
| `Machine.Machine.Execute` | main.c:304-308 | every handler: the masks are disjoint and merging them gives the memory the step function says, or the handler refuses |
| `Aborts.AbortsIff` | main.c:256-343 | a step aborts exactly when fetching fails, the word is refused, or the instruction to be skipped cannot be fetched |
| `Aborts.RefusedIff` | instr.c:483-560 | a decoded word is refused exactly when it is on an explicit list of opcodes: unimplemented, extended indirect without 22 bits, undefined overlaps |
| `Opcodes.FetchIff` | main.c:256-302 | with the decode table in any order, an instruction is fetched at an address exactly when flash holds there the words the AVR Instruction Set Manual gives it, opcode, operand fields and signed offsets bit by bit, or one of seven words that have no operands: LPM, ELPM, SLEEP, BREAK, WDR, SPM, SPM Z+ |
| `Opcodes.FetchEncoded` | main.c:41-111 | an instruction the manual has an opcode for, assembled into flash, is fetched as itself |
| `Opcodes.FetchedEncodes` | main.c:41-111 | an instruction that has been fetched assembles to the words it was fetched from, unless it is one of the seven without operands |
| `Opcodes.FetchAbortsIff` | main.c:260-275 | fetching aborts for a word no instruction of the manual begins with, and for an address or a second word outside flash, and says which of the two it was |
| `Frame.MemFrame` | instr.c:193-1138 | no instruction changes a byte outside an explicit write set, although registers, SP and SREG live in the same memory |
| `Reads.MemAgree` | instr.c:193-1138 | for every instruction, a byte written is the same in two states that agree on the bytes that steer the instruction (address, branch, skip, return) and on the bytes it is made from, both given as explicit sets |
| `Lockstep.StepTwins` | main.c:249-343 | two machines that agree on every byte that steers the next instruction take the same step as far as control goes, aborts included |
| `Lockstep.RunTwins` | main.c:249-343 | two runs from memories that differ stay in lockstep as long as no byte tainted by the difference steers the first; a byte free of taint is then the same in both, and a byte not written is as it was in each |
| `Lockstep.CleanMeets` | main.c:249-343 | two runs from memories that differ end in the same state when no tainted byte steers the first and no taint is left |
| `Lockstep.ConvergeIff` | main.c:249-343 | two runs from memories that differ, where the first looks at no differing byte before it has written it, end in the same state exactly when every differing byte has been written |
| `Debugger.LoopFaithful` | main.c:366-402 | at every head of the emulate loop the machine is what `insns` steps from the last reset lead to |
| `Debugger.ReverseStep` | gdbstub.c:590-605 | a reverse step from count n, at any prompt, restarts on the memory it has and replays n - 1 instructions silently; control comes back exactly when that replay does not abort, and otherwise the emulator exits with the replay's fault |
| `ReverseDrift.ReverseExactIff` | main.c:373-393 | for every program and count: if no replayed step looks at a changed byte before writing it, the reverse step recovers the state one instruction earlier exactly when every changed byte is written in the replayed stretch |
| `ReverseDrift.ReverseRecovers` | main.c:373-393 | for every program and count: if no byte tainted by what has changed decides an address, a branch, a skip or a return in the replayed stretch, control comes back, and the state one instruction earlier is recovered when no taint is left |
| `ReverseDrift.StartupRecovers` | main.c:373-393 | a program that begins with EOR r1,r1 and OUT SREG,r1 is recovered from count 3 when only r1 and SREG have changed, although it merges flags into the changed SREG |
| `ReverseDrift.ReverseInexact` | main.c:383-387 | whatever the replay looks at, a changed byte that neither run to that point writes stays changed |
| `Debugger.ReverseRestores` | main.c:373-387 | a reverse step recovers the past state whenever memory is as it was at the last reset |
| `ReverseDrift.Drift` | main.c:125-138 | on two INC r0 a reverse step from count 2 does not recover the past, from any start memory |
| `ReverseDrift.Crash` | main.c:125-138 | a four-word program that runs forward without fault from every memory with r0 even and whose replay aborts |
| `ReverseDrift.ReverseCrashes` | main.c:373-393 | reversing from count 3 of the program of `ReverseDrift.Crash` ends the emulator |
| `Debugger.PromptsWalk` | gdbstub.c:580-605 | for any list of steps and reverse steps, the count at each prompt is the walk of +1 and -1 that stops at zero |
| `Debugger.AllServed` | gdbstub.c:580-605 | every list of steps and reverse steps is served to its end after finitely many iterations, unless an instruction aborts |
| `Debugger.ReplayIsSilent` | main.c:315-333 | an iteration that replays writes no trace |
| `Debugger.BelowLimit` | main.c:398-401 | with a limit, the count is below it at every loop head, so no replay trips it |
| `Debugger.LimitExact` | main.c:366-402 | with limit N and no debugger, exactly N instructions run, or the run aborts before with the same fault |
| `Breakpoints.ContinueStops` | gdbstub.c:340-365 | after a continue at any prompt, the next command is read at the least number k > 0 of instructions after which the program stands at an armed address; nothing is read and no breakpoint changes before that; an address is armed as the last command about it, or the state before the prompt, says |
| `Breakpoints.ContinueRuns` | gdbstub.c:340-365 | until an armed address is reached, a continued session runs the program one instruction an iteration and reads nothing, up to a fault or the limit |
| `Breakpoints.ContinueIff` | gdbstub.c:340-365 | a continued session with commands left reads another one exactly when the program comes to an armed address before a fault and before the limit |
| `Breakpoints.StepStops` | gdbstub.c:349-352 | after a step the next command is read one instruction later, whatever the breakpoints |
| `Breakpoints.IdleStops` | gdbstub.c:340-365 | on the idle loop at address 0, setting a breakpoint there and continuing reads the next command one instruction later |
| `Breakpoints.IdleRuns` | gdbstub.c:340-365 | on the same loop without a breakpoint a continue is never followed by another command, after any number of iterations |
| `CallStack.CallReturns` | instr.c:938-966 | at any nesting depth and for both widths, RET and RETI land right after the matching call with SP restored |
| `CallStack.RunLifo` | instr.c:914-966 | any run by the stack rules keeps the machine's stack equal to the list of return addresses and saved bytes |
| `CallStack.StepLifo` | instr.c:334-352 | one step by the rules keeps the machine's stack equal to the list; a RET goes to the top address and a POP gives the top byte |
| `Isolation.RunIsolatedIff` | instr.c:193-211 | a run is independent of high memory at every step exactly when none of its steps pops across 0xffff |
| `Isolation.StepIsolatedIff` | instr.c:193-201 | a step is independent of high memory exactly when it does not pop across 0xffff |
| `Isolation.RunConfined` | instr.c:193-211 | in the 64 KiB model no run changes a byte at or above 0x10000 |
| `Isolation.RunAlike` | instr.c:1054-1138 | two runs of any length from machines that agree below 0x10000 keep agreeing there, aborts included, as long as no step pops across 0xffff |
| `Isolation.StepAlike` | instr.c:644-723 | two machines that agree below 0x10000 agree after a step that does not pop across 0xffff |
| `Isolation.LeakShows` | instr.c:193-201 | a pop across 0xffff gives different outcomes on two machines that differ in one bit at 0x10000 |
| `Isolation.PopLeaks` | instr.c:193-201 | POP r0 at SP = 0xffff in the 64 KiB model depends on memory above 64 KiB |
| `Programs.CompareProgram` | instr.c:303-320 | a straight line of CP/CPC or SUB/SBC in flash and a branch on C or S: after n + 1 steps from any state the program counter is where the n-byte comparison of the registers sends it |
| `Programs.EqualProgramIff` | instr.c:411-414 | a straight line of CP/CPC or SUB/SBC in flash and BREQ or BRNE, from any state: the program counter is where n-byte equality of the registers sends it exactly when Z was set at the start or the numbers differ |
| `Programs.EqualMissed` | instr.c:411-414 | CP r0,r0 and BREQ with Z clear fall through |
| `Programs.SubtractProgram` | instr.c:394-415 | a line of SUB and SBC leaves the n-byte difference modulo 256^n in its registers |
| `Programs.AddProgram` | instr.c:213-230 | a line of ADD and ADC leaves the n-byte sum modulo 256^n in its registers, carry, overflow and sign of the whole numbers in C, V and S, and Z set exactly when its top byte is 0 |
| `Programs.ShiftProgram` | instr.c:968-980 | LSR or ASR and then ROR down a line of registers halve the n-byte number in place, rounding down; C and S are the bit shifted out |
| `Programs.CodeIsChain` | instr.c:394-415 | a straight line of SUB/SBC or CP/CPC in flash runs as a chain on the contents of its registers |
| `Laws.AddLaw` | instr.c:213-230 | ADD and ADC: the byte of the sum in Rd, C, H, V, N and S of the exact sum, Z exactly when that byte is 0, T and I kept, no other cell changed |
| `Laws.SubLaw` | instr.c:394-415 | CP, CPC, SUB and SBC: the byte of the difference in Rd for the two that store, C, H, V, N and S of the exact difference, Z kept if the difference is 0 and cleared if not, no other cell changed |
| `Laws.SubImmLaw` | instr.c:418-435 | CPI, SUBI and SBCI: the same with a constant, and Z exactly when the difference is 0 |
| `Laws.NegLaw` | instr.c:829-868 | NEG: the two's complement in Rd, C unless the result is 0, V for 128, H unless the low half was 0, Z, N and S, no other cell changed |
| `Laws.IncLaw` | instr.c:606-621 | INC: 255 goes to 0, V for 127, Z, N and S, C and H kept, no other cell changed |
| `Laws.DecLaw` | instr.c:445-458 | DEC: 0 goes to 255, V for 128, Z, N and S, C and H kept, no other cell changed |
| `Laws.LogicLaw` | instr.c:248-255 | AND, OR and EOR: every bit of Rd is the and, or, or difference of the two bits, V cleared, Z, N and S, C and H kept, no other cell changed |
| `Laws.LogicImmLaw` | instr.c:256-263 | ANDI and ORI: the same with a constant |
| `Laws.ComLaw` | instr.c:370-392 | COM: 255 - Rd, C set, V cleared, Z, N and S, no other cell changed |
| `Laws.ShiftLaw` | instr.c:968-980 | LSR, ASR and ROR: half of Rd with 0, the sign or the old C at the top; C and S are the bit shifted out, V is N xor C, Z and N of the result, H kept, no other cell changed |
| `Laws.AdiwLaw` | instr.c:232-246 | ADIW: the word of the sum in the pair, C, V, N and S of the exact sum, Z exactly when the word is 0, H kept, no other cell changed |
| `Laws.SbiwLaw` | instr.c:999-1037 | SBIW: the word of the difference in the pair, C, V, N and S of the exact difference, Z exactly when the word is 0, H kept, no other cell changed |
| `Laws.MulLaw` | instr.c:788-827 | MUL, MULS, MULSU, FMUL, FMULS and FMULSU: r1:r0 hold the exact product of the bytes, signed or not, doubled for the fractional ones; C is bit 15 of the product, Z tests the word, no other flag or cell changed |
| `DataLaws.MovLaw` | instr.c:771-776 | MOV copies Rr to Rd and changes nothing else |
| `DataLaws.MovwLaw` | instr.c:778-786 | MOVW copies both bytes of a pair, also onto itself, and changes nothing else |
| `DataLaws.LdiLaw` | instr.c:637-642 | LDI puts the constant in Rd and changes nothing else |
| `DataLaws.SwapLaw` | instr.c:1102-1109 | SWAP exchanges bits 3..0 and 7..4 of Rd and changes nothing else |
| `DataLaws.IoBitLaw` | instr.c:354-368 | SBI and CBI set or clear one bit of one I/O cell and keep every other bit |
| `DataLaws.SetFlagLaw` | instr.c:276-289 | BSET and BCLR set or clear one bit of SREG and keep every other bit |
| `DataLaws.BldLaw` | instr.c:291-301 | BLD copies T into one bit of Rd and keeps every other bit |
| `DataLaws.BstLaw` | instr.c:322-332 | BST copies one bit of Rd into T and keeps every other bit of SREG |
| `DataLaws.InLaw` | instr.c:597-604 | IN reads the cell 0x20 above the port |
| `DataLaws.OutLaw` | instr.c:891-898 | OUT writes the cell 0x20 above the port and nothing else |
| `DataLaws.LdsLaw` | instr.c:644-654 | LDS reads the address in its second word, extended by RAMPD at 0x58 outside the 64 KiB model |
| `DataLaws.StsLaw` | instr.c:1054-1067 | STS writes the address in its second word, extended by RAMPD outside the 64 KiB model and cut to a byte in the doubly limited one, and nothing else |
| `DataLaws.PushLaw` | instr.c:203-211 | PUSH stores Rd where SP points, unless SP's own bytes are there, and takes SP down by one modulo 65536 |
| `DataLaws.PopLaw` | instr.c:193-201 | POP takes SP up by one modulo 65536 and loads the byte above the old SP, at 0x10000 when SP wraps; where SP's own bytes are there it loads the new ones |
| `DataLaws.XchLaw` | instr.c:1111-1138 | XCH, LAS, LAC and LAT: Rd gets the old cell at Z, and each bit of the cell is the register's bit, the or, the cell without the register's bits, or the difference |
| `DataLaws.LpmLaw` | instr.c:509-560 | LPM and ELPM load the low half of the flash word at half the address if the address is even and the high half if it is odd, RAMPZ extending the address for ELPM; with Z+ only the word Z counts on |
| `DataLaws.DesLaw` | instr.c:460-481 | DES changes nothing before round 15; there r0 to r7 are the cipher's block for the data in r0 to r7 and the key in r8 to r15, decrypting if H is set |
| `IndirectLaws.StdLaw` | instr.c:691-710 | STD P+q and ST P store Rd q places past the pointer, modulo 256, 64 KiB or 16 MiB as the memory model has it, and change nothing else |
| `IndirectLaws.LddLaw` | instr.c:691-710 | LDD P+q and LD P load the cell q places past the pointer, modulo the memory model, and change nothing else |
| `IndirectLaws.StoreLaw` | instr.c:665-723 | ST P+ and ST -P store at the pointer or one place before it, move the pointer one place on or back modulo the memory model, and change only that cell and the pointer bytes the model updates |
| `IndirectLaws.LoadLaw` | instr.c:665-723 | LD P+ and LD -P load from the pointer or one place before it, move the pointer one place on or back, and change only Rd and the pointer bytes the model updates |
| `IndirectLaws.OverlapLaw` | instr.c:683-689 | LD and ST that move the pointer are refused for its own registers |
| `IndirectLaws.StoreReached` | instr.c:665-723 | a byte stored by STD P+q is what the last of q + 1 loads through P+ returns, in all three memory models and across their wrap-around, when the cell is none of the pointer's and none of the registers loaded |
| `ControlLaws.BranchLaw` | instr.c:303-320 | BRBS and BRBC go to pc + 1 + offset, forward or back, when the SREG bit is as asked and to pc + 1 when not, with memory unchanged |
| `ControlLaws.BranchReaches` | instr.c:303-320 | a conditional branch assembled into flash for a target up to 64 words away, ahead or behind, is taken to that target |
| `ControlLaws.JumpReaches` | instr.c:914-936 | RJMP assembled into flash for a target up to 2048 words away, ahead or behind, goes to that target |
| `ControlLaws.Idles` | instr.c:914-936 | RJMP .-2, the word 0xcfff, run any number of times changes nothing but the instruction count |
| `ControlLaws.LongJumpLaw` | instr.c:623-634 | JMP goes to its 16-bit address, extended by its six high bits only with a 22-bit program counter |
| `ControlLaws.IndJumpLaw` | instr.c:483-507 | IJMP goes to Z; EIJMP to Z extended by EIND, and is refused without a 22-bit program counter |
| `ControlLaws.SkipEqLaw` | instr.c:437-443 | CPSE passes the next instruction, one word or two, exactly when the registers are equal, and aborts if that instruction cannot be fetched |
| `ControlLaws.SkipIoLaw` | instr.c:982-997 | SBIC and SBIS pass the next instruction exactly when the bit of the I/O cell is as asked |
| `ControlLaws.SkipBitLaw` | instr.c:1039-1052 | SBRC and SBRS pass the next instruction exactly when the register bit is as asked |
| `ControlLaws.CallLaw` | instr.c:334-352 | CALL pushes pc + 2, lowest byte first, two bytes or three, with SP modulo 65536, changes no other cell and goes to its target, as long as the bytes do not fall on SP itself |
| `ControlLaws.RelCallLaw` | instr.c:914-936 | RCALL pushes pc + 1 in the same way and goes to pc + 1 + offset, forward or back |
| `ControlLaws.IndCallLaw` | instr.c:483-507 | ICALL and EICALL push pc + 1 in the same way and go to Z, extended by EIND for EICALL, which is refused without a 22-bit program counter |
| `ControlLaws.RetLaw` | instr.c:938-966 | RET and RETI go to the address in the two or three bytes above SP, highest first, modulo 2^22 in the wide case, and take SP up past them; RETI sets I and keeps the other flags |
| `Chains.SubChainFlags` | instr.c:155-191 | after SUB/SBC or CP/CPC of any length: C unsigned less-than, S signed less-than, V n-byte signed overflow, N the top bit, Z the old Z and equality |
| `Chains.SubChainValue` | instr.c:394-415 | for numbers of any length, SUB then SBC computes the difference modulo 256^n and C is unsigned less-than |
| `Chains.SubStored` | instr.c:407-409 | the links that store leave the digits of the difference in their registers |
| `Chains.CompareAndBranch` | instr.c:303-320 | BRBS or BRBC on C or S after the chain branches exactly when the n-byte comparison holds or fails |
| `Chains.EqualAndBranch` | instr.c:303-320 | BREQ or BRNE after the chain is taken as the old Z and n-byte equality say |
| `Chains.EqualDecidedIff` | instr.c:411-414 | BREQ and BRNE decide n-byte equality exactly when Z was set before the first link or the numbers differ |
| `Chains.AddChainValue` | instr.c:213-230 | for numbers of any length, the bytes left by the links of ADD then ADC are the sum modulo 256^n and C is the carry out, with any code between the links that leaves C alone |
| `Chains.AddChainFlags` | instr.c:86-122 | after the chain V is n-byte signed overflow, S the sign of the exact sum, N the top bit, Z set exactly when the last link's byte is 0 |
| `Chains.ShiftChainValue` | instr.c:968-980 | the bytes left by the links of LSR or ASR then ROR are half the unsigned or signed number, rounded down; C and S are the bit shifted out |
| `Chains.AdiwIsChain` | instr.c:232-246 | ADIW gives the word and the C, N, V, S of adding byte by byte |
| `Chains.SbiwIsChain` | instr.c:999-1037 | SBIW gives the word and the C, N, V, S of SUBI then SBCI |
| `Pointers.PushPopReverses` | instr.c:656-723 | n post-increment stores then n pre-decrement loads return the bytes in reverse and restore the pointer's three cells, wrap-around and RAMP carry included, in all three memory models |
| `Pointers.PutPointerAt` | instr.c:711-722 | writing a pointer back moves it there, modulo the memory model, and touches only its own cells |
| `Transfers.StoreLoadIff` | instr.c:644-654 | LDS from the operand of an STS reads the cell stored to exactly when no 256-byte mask applies and the store has not changed RAMPD, and then the byte comes back |
| `Transfers.AddressesAgreeIff` | instr.c:1054-1067 | LDS and STS mean the same cell exactly outside the doubly limited model or below address 256 |
| `Transfers.MaskedStoreLost` | instr.c:1061-1064 | where the 256-byte mask of STS applies, LDS from its operand gets what was at the unmasked address |
| `Transfers.RampStoreMoves` | instr.c:649-653 | storing to RAMPD moves the window the next LDS looks through |
| `Transfers.BlockConsecutiveIff` | instr.c:529-560 | n reads by LPM or ELPM Rd,Z+ cover n consecutive flash addresses exactly when the block stays within 64 KiB |
| `Transfers.BlockReadIff` | instr.c:529-560 | read k of a block of LPM or ELPM Rd,Z+ loads the flash byte at its address, which is k past the first exactly when no 64 KiB boundary has been crossed |
| `Trace.TraceParses` | main.c:272-333 | the trace of any run, also of one that aborts, splits into exactly the instructions executed; skipped and refused ones are absent, and without an abort there is one per step |
| `Trace.SessionParses` | main.c:315-333 | the trace of any debugging session, however it ends, splits into exactly the instructions executed outside replay |
| `Trace.SplitFlatten` | main.c:315-333 | cutting a separator-free stream by the decoder's length rule recovers its instructions |
| `Steps.RunPermuted` | main.c:41-111 | any permutation of the decode table gives the same run from every state |
| `DecodeTable.MatchesIffSlot` | main.c:41-111 | a word matches a row exactly when the row is the one the opcode tree assigns to it, so rows are pairwise disjoint |
| `DecodeTable.LookupIsSlot` | main.c:262-267 | first-match search in any table with the same rows finds that row, and fails exactly when there is none |
| `DecodeTable.RowsWellLaid` | main.c:41-111 | every row's operand flags are those its handler relies on |
| `Steps.RunCounts` | main.c:249-343 | a run of n calls from init counts n and never leaves a skip pending |
| `Steps.StepCounts` | main.c:335-342 | with no skip pending, a call counts one instruction and leaves none pending |
| `Steps.SkipMoves` | main.c:272-285 | a skip instruction changes no memory; when taken it passes one or two words as the next instruction's size dictates |
| `Steps.FetchFailsIff` | main.c:260-275 | fetching fails exactly for a program counter or second word outside flash or a word no row owns |
| `SignFlag.RunKeepsSign` | instr.c:829-868 | S = N xor V is kept by every run that neither stores to SREG nor uses BSET or BCLR on N, V or S |
| `SignFlag.ArithSetsSign` | instr.c:6-191 | every instruction with arithmetic flags leaves S = N xor V, whatever was there |
| `RegisterText.RoundTripIff` | gdbstub.c:388-468 | setting from what getting produced is the identity exactly for program counters below 2^22 and, without a 22-bit program counter, below 2^16 |
| `RegisterText.SetOfGet` | gdbstub.c:388-468 | setting any machine from any other's text copies its registers, SREG and SP and its program counter modulo 2^22, or refuses it as too wide |
| `RegisterText.GetRegs` | gdbstub.c:388-424 | the reply is the hex of 32 registers, SREG, SP and the doubled program counter |
| `RegisterText.SetRegs` | gdbstub.c:426-468 | registers, SREG, SP and program counter parsed from the text, or refusal exactly where an assertion fails |
| `Packets.ServeExact` | gdbstub.c:256-287 | serving a stream of packets reads up to and including the first that resumes execution, calls the commands of the intact packets in order, and answers every packet once |
| `Packets.ServeIsInteract` | gdbstub.c:219-338 | serving a stream of packets at one prompt is the session's command loop on the commands they carry, breakpoint addresses and the log of counts included |
| `Packets.OrderIsFree` | gdbstub.c:47-71 | no command name begins another, so the order of the dispatch table does not matter |
| `PacketTurns.NeverEndsIff` | gdbstub.c:262-282 | the packet loop, turn by turn as written, goes on for ever exactly when no packet in the buffer resumes execution and the last one is incomplete |
| `PacketTurns.EndsWithin` | gdbstub.c:256-287 | a packet loop that does end is left within one turn more than there are characters, with the packets served up to the first that resumes execution and precisely the unread text kept |
| `PacketTurns.HalfRequestSpins` | gdbstub.c:262-282 | on the buffer `$g` every number of turns leaves everything as it was |
| `PacketTurns.FeedIsServe` | gdbstub.c:229-288 | however a stream is cut into receives, unless a pass gets stuck or fails, the link and the unread text are those of serving the whole stream |
| `PacketTurns.WholeReceives` | gdbstub.c:229-288 | receives that hold whole packets never get stuck |
| `PacketSession.PacketSessionIsLoop` | gdbstub.c:219-365 | a whole session driven by packets, for any number of iterations of the emulate loop, is the session driven by the commands those packets carry |
| `Wire.WireScript` | gdbstub.c:47-71 | any list of debugger commands, written as `c`, `s`, `bs`, `g`, `Z0,addr,2` and `z0,addr,2` with the address in hex and framed, is whole packets that stand for exactly those commands |
| `Wire.WireSession` | gdbstub.c:219-365 | a session driven by the framed texts of a list of commands is the session on that list, at every iteration |
| `Wire.DispatchLaw` | gdbstub.c:47-71 | what each of the fourteen command names dispatches to, whatever follows the name |
| `Wire.BreakAddrLaw` | gdbstub.c:541-570 | the address of a breakpoint command is the number its hex digits write, for every 32-bit address |
| `Wire.ReplyLaw` | gdbstub.c:388-424 | the reply to `g` is 78 characters: two lower-case digits for each register, SREG at place 32, SP low byte first at 33 and 34, and the doubled program counter, lowest byte first, without its bits above 22 |
| `Wire.AnswerLaw` | gdbstub.c:294-320 | a packet with two hex digits is answered with `+` exactly when they say the sum of its characters modulo 256, and with `-` otherwise |
| `Wire.KnownFrames` | gdbstub.c:128-140 | the frames of the texts OK, g, S05 and of the empty text, character by character |
| `PacketLoop.Stub.Process` | gdbstub.c:256-287 | on any buffer, any number of turns of the loop are those of `PacketTurns.Turns`, and once it is left precisely the unread text is kept |
| `PacketLoop.Stub.Turn` | gdbstub.c:262-282 | one turn of the loop at any position is `PacketTurns.Turn`; on an incomplete packet neither the buffer nor the position changes |
| `PacketLoop.Stub.Cmd` | gdbstub.c:294-338 | one packet: answered, dispatched if intact, and nothing after its `#` changed |
| `PacketLoop.Stub.Run` | gdbstub.c:580-605 | step, reverse step and the resume flag of the table |
| `PacketLoop.Stub.Memchr` | gdbstub.c:272-272 | the first `#` of the unread text, or its end |
| `PacketLoop.Search` | gdbstub.c:322-331 | the loop finds the first table entry whose name begins the command |
| `PacketLoop.Checksum` | gdbstub.c:87-96 | the loop computes the sum of the characters up to a NUL, modulo 256 |
| `PacketLoop.SendStr` | gdbstub.c:128-140 | the frame `$data#xx`, whenever it and its terminator fit the 4096-byte buffer; one character longer and its last digit goes out as a NUL |
| `Framing.ParseStream` | gdbstub.c:256-282 | a stream of whole items is read back as those items |
| `Framing.ParseText` | gdbstub.c:256-282 | what is read and what is left make up the buffer, for every buffer |
| `Framing.FrameThenTakeIff` | gdbstub.c:128-140 | framing then reading gives a string back exactly when it holds no `#` |
| `Packets.FramesCarry` | gdbstub.c:128-140 | framed commands make a stream of whole packets that carries exactly those commands |
| `Framing.DamagePassesIff` | gdbstub.c:87-96 | an intact packet with one character of its data changed, not to `#`, still passes exactly when the change lies behind the first NUL, or is a NUL cutting off a sum of zero, or uncovers a sum of zero, or agrees with the old character modulo 256, which for bytes is no change |
| `Framing.FrameDamagePassesIff` | gdbstub.c:294-310 | a changed lead character always passes, and changed checksum digits pass exactly when they say the same number |
| `Framing.CutByPound` | gdbstub.c:272-281 | a data character changed to `#` ends the packet there: the two characters behind it are read as its checksum, and nothing can be read if the first is no digit |
| `Framing.DamageExamples` | gdbstub.c:294-310 | two packets that pass with a character changed |
| `Emulator.Emulator.Emulate` | main.c:356-402 | the loop is `Debugger.Loop`, on every prefix of every session |
| `Emulator.Emulator.Iterate` | main.c:366-402 | one iteration of the emulate loop is `Debugger.LoopStep` |
| `Emulator.Emulator.RunOne` | main.c:393-401 | one instruction and the limit check |
| `Emulator.Emulator.Prompt` | main.c:373-381 | the end of a replay and the stop outside one |
| `Emulator.Emulator.Interrupt` | gdbstub.c:340-365 | the stop before an instruction, for a single step or a breakpoint |
| `Emulator.Emulator.Interactive` | gdbstub.c:219-292 | the command loop serves commands until one resumes execution |
| `Emulator.Emulator.Obey` | gdbstub.c:322-331 | one command's effect on the session, and whether it resumes execution |
| `FlagMasks.AddFormulas` | instr.c:86-122 | the bit formulas for C, V, H and S of an addition are carry out, signed overflow, half carry and the sign of the exact sum |
| `FlagMasks.SubFormulas` | instr.c:155-191 | the bit formulas for a subtraction are borrow, signed overflow, half borrow and the sign of the exact difference |
| `FlagMasks.BitsInNumbers` | instr.c:86-191 | the tests of bits 7 and 3 are comparisons of the number and of its low half |
| `FlagMasks.AdcFlags8` | instr.c:86-122 | the masks it builds are disjoint and, merged into any SREG, give the flags of the exact sum with carry in |
| `FlagMasks.SubFlags8` | instr.c:155-191 | the masks it builds are disjoint and, merged into any SREG, give the flags of the exact difference with borrow in |
| `FlagMasks.StickyZ` | instr.c:394-415 | dropping Z from the masks to set turns the plain Z into the one that survives only if it was set before |
| `FlagMasks.AsrFlags8` | instr.c:6-36 | for a right shift, C and S are the bit shifted out and V is N xor C |
| `FlagMasks.LogicFlags8` | instr.c:38-53 | logic results set Z and N, clear V and make S equal to N |
| `FlagMasks.MulFlags16` | instr.c:55-68 | C is bit 15 and Z tests the product |
| `FlagMasks.FmulFlags16` | instr.c:70-84 | C is bit 15 of the product before its shift and Z tests the shifted word |
| `FlagMasks.AdiwFlags16` | instr.c:124-153 | for a word sum with a six-bit constant, C, N, V, S and Z are those of the exact sum |
| `FlagMasks.SbiwFlags16` | instr.c:999-1037 | for a word difference with a six-bit constant, C, N, V, S and Z are those of the exact difference |
| `FlagMasks.NegFlags8` | instr.c:829-868 | the separate flag code of NEG gives the flags of 0 - Rd |
| `FlagMasks.ComFlags8` | instr.c:370-392 | the separate flag code of COM gives logic flags and C set |
| `FlagMasks.IncFlags8` | instr.c:606-621 | logic flags patched at 0x80 are the flags of Rd + 1, C and H untouched |
| `FlagMasks.DecFlags8` | instr.c:445-458 | logic flags patched at 0x7f are the flags of Rd - 1, C and H untouched |
| `Machine.Machine.ExecuteEntry` | main.c:287-335 | operands, handler, overlap assertion, merge, program counter and count together are one `Cpu.Exec` |
| `Machine.Machine.FetchEntry` | main.c:256-275 | decoding, with the two ways it can abort |
| `Machine.Machine.Search` | main.c:262-267 | the loop finds the first matching row |
| `Machine.Machine.Operands` | main.c:269-302 | each handler finds its operands in the fields the table's flags select |
| `Machine.Machine.LdstCommon` | instr.c:665-723 | the whole indirect load or store, refused exactly when an updated pointer overlaps the data register |
| `Machine.Machine.Effective` | instr.c:691-704 | the address of an indirect access: displacement, pre-decrement, wrap at 24 bits, then the memory model's mask |
| `Machine.Machine.WriteBack` | instr.c:711-722 | the pointer update: one byte, one word, or word and RAMP byte |
| `Machine.Machine.InstrLdyzStyz` | instr.c:733-757 | LD, LDD, ST, STD through Y and Z |
| `Machine.Machine.Pop8` | instr.c:193-201 | the byte at sp + 1 without truncation, and SP advanced modulo 65536 |
| `Machine.Machine.Push8` | instr.c:203-211 | the byte stored at SP, then SP taken down modulo 65536, with SP and its bytes possibly overwritten by the store |
| `Machine.Machine.RetCommon` | instr.c:938-951 | the return address popped, reduced to 22 bits in the wide case |
| `Machine.Machine.InstrEicalljump` | instr.c:483-507 | ICALL, IJMP, EICALL, EIJMP, refused exactly for the extended forms without a 22-bit program counter |
| `Machine.Machine.InstrCpc` | instr.c:394-415 | CP, CPC, SUB, SBC: SREG with sticky Z, and the register only for the two that store |
| `Machine.Machine.InstrCpi` | instr.c:418-435 | CPI, SUBI, SBCI: SREG with plain Z, and the register only for the two that store |
| `Machine.Machine.InstrXch` | instr.c:1111-1138 | XCH, LAS, LAC, LAT as one read-modify-write |
| `Machine.Machine.InstrDes` | instr.c:460-481 | DES writes only r0 to r7, from the key and data registers, the round and H |
| `Machine.Machine.InstrElpmz` | instr.c:529-560 | LPM and ELPM with a destination, refused exactly when Z+ overlaps it |
| `Machine.Machine.LoadProgram` | emu.h:197-211 | the flash byte LPM and ELPM read; the flash-range assertion always holds |
| `Machine.Machine.Init` | main.c:125-138 | program counter, count, skip and the three model switches are zero or off, and memory is left as it was |
| `Bytes.UnpackPack` | emu.h:69-77 | the eight flag bits survive being packed into the SREG byte |
| `Bytes.PackUnpack` | emu.h:69-77 | every SREG byte is the packing of its bits |

## Left out

- Sockets, polling, accepting a client, signals, option parsing, ROM loading, the clock and all printing: input and output only; what the debugger sends is a list of commands or a buffer of characters.
- DES itself: the block cipher comes from OpenSSL and is a parameter of the model; only what it reads and writes is stated.
- `getsn` and `input_record`: terminal input that no instruction calls.
- Emulator.Emulator.Obey: does not model replies, nor the commands that write registers or memory, because reads come from flash and writes go to data memory, so no round trip holds, and a session with debugger writes is no replay of its start.
- Emulator.Emulator.Interactive: takes a list of commands where the source polls a socket; `Packets.ServeIsInteract` connects the list to the packets that carry it.
- Emulator.Emulator.Iterate: does not model the interrupt key and the `off` switch, which only end the loop.
- Emulator.Emulator.Emulate: does not model the interrupt key and the `off` switch, which only end the loop.
- RegisterText.SetRegs: blanks, signs and a `0x` prefix, which `sscanf` accepts, count as unparsable, and text that ends inside a register counts as a failed assertion, because the source then reads beyond the string; the same holds for the checksum digits in `Framing`.
- PacketLoop.Stub.Run: handlers that can fail an assertion on bad text (G, M, m, Z0, z0) end the process in the source and only record a call here, and memory and register writes have no effect on the stub's own state.
- PacketLoop.Stub.Cmd: does not model the replies of the handlers, nor the assertions they can fail on bad text, which end the process.
- Packets.ServeIsInteract: stated for streams without register and memory writes and with readable breakpoint addresses, because the session has no such commands and an unreadable address ends the process.
- PacketLoop.Stub.Process: is bounded by a number of turns, so that its non-terminating runs can be spoken of; what a read beyond the buffer would find is not modelled.
- The hexadecimal trace format and the byte order of the words in the trace file: the trace is a sequence of words.
- SLEEP, BREAK, WDR and SPM: the program does not implement them; they abort here too.
- Host atomics in `instr_xch`: the emulator is single-threaded and they are plain reads and writes here.
- The wrap-around of the 64-bit instruction counter: `insns` is unbounded.
- Memory after an abort: the process exits, so only the reason and the trace are compared.
- Disjoint bit fields joined with `|` are written as sums, and bytes shifted into words as products.
- Where a replay leads once a tainted byte steers it: the replay can take another path, and what it ends in is only what running it gives (`Debugger.ReverseStep`); there `ReverseDrift.ReverseInexact` still rules out recovery in one case.
- ControlLaws.CallLaw: says nothing of a call whose return address lands on the two cells of SP, where the result is an accident of the order of the writes; `Machine.Machine.Execute` covers it. The same holds for RCALL and ICALL.
- ControlLaws.RetLaw: says nothing of a return that reads the two cells of SP, for the same reason.
- Programs that move SP or overwrite live stack bytes by hand: `CallStack` promises nothing about their returns.
