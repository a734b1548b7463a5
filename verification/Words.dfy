/**
 Single instruction words decoded from flash, for the concrete programs that
 show where the emulator departs from what one would expect.
 */
module Words {
  import opened Isa
  import opened Cpu
  import opened DecodeTable
  import opened Assembler
  import opened Opcodes

  const INC_R0: bv16 := 0x9403
  const SBRC_R0_0: bv16 := 0xfc00
  const SLEEP: bv16 := 0x9588
  const NOP: bv16 := 0x0000
  const CP_R0_R0: bv16 := 0x1400
  const BREQ_1: bv16 := 0xf009
  const POP_R0: bv16 := 0x900f
  const EOR_R1_R1: bv16 := 0x2411
  const OUT_SREG_R1: bv16 := 0xbe1f
  const RJMP_BACK: bv16 := 0xcfff
  const ADD_R0_R1: bv16 := 0x0c01

  lemma FetchSleep(rom: Rom, pc: u32)
    requires SameRows(rom.table) && pc < FLASH_SIZE && rom.flash[pc] == SLEEP
    ensures Fetch(rom, pc) == Ok(Unimplemented)
  {
    hide Fetch, SameRows;
    FetchIff(rom, pc, Unimplemented);
  }

  lemma IncWord()
    ensures Opcode(Inc(0)).Some? && WordOf(Opcode(Inc(0)).value) == INC_R0
  {
  }

  lemma FetchInc(rom: Rom, pc: u32)
    requires SameRows(rom.table) && pc < FLASH_SIZE && rom.flash[pc] == INC_R0
    ensures Fetch(rom, pc) == Ok(Inc(0))
  {
    hide Fetch, SameRows, Opcode, WordOf;
    IncWord();
    FetchIff(rom, pc, Inc(0));
  }

  lemma SbrcWord()
    ensures Opcode(SkipBit(0, 0, false)).Some? && WordOf(Opcode(SkipBit(0, 0, false)).value) == SBRC_R0_0
  {
  }

  lemma FetchSbrc(rom: Rom, pc: u32)
    requires SameRows(rom.table) && pc < FLASH_SIZE && rom.flash[pc] == SBRC_R0_0
    ensures Fetch(rom, pc) == Ok(SkipBit(0, 0, false))
  {
    hide Fetch, SameRows, Opcode, WordOf;
    SbrcWord();
    FetchIff(rom, pc, SkipBit(0, 0, false));
  }

  lemma NopWord()
    ensures Opcode(Nop).Some? && WordOf(Opcode(Nop).value) == NOP
  {
  }

  lemma FetchNop(rom: Rom, pc: u32)
    requires SameRows(rom.table) && pc < FLASH_SIZE && rom.flash[pc] == NOP
    ensures Fetch(rom, pc) == Ok(Nop)
  {
    hide Fetch, SameRows, Opcode, WordOf;
    NopWord();
    FetchIff(rom, pc, Nop);
  }

  lemma CpWord()
    ensures Opcode(Sub(0, 0, false, false)).Some? && WordOf(Opcode(Sub(0, 0, false, false)).value) == CP_R0_R0
  {
  }

  lemma FetchCp(rom: Rom, pc: u32)
    requires SameRows(rom.table) && pc < FLASH_SIZE && rom.flash[pc] == CP_R0_R0
    ensures Fetch(rom, pc) == Ok(Sub(0, 0, false, false))
  {
    hide Fetch, SameRows, Opcode, WordOf;
    CpWord();
    FetchIff(rom, pc, Sub(0, 0, false, false));
  }

  lemma BreqWord()
    ensures Opcode(Branch(1, true, 1)).Some? && WordOf(Opcode(Branch(1, true, 1)).value) == BREQ_1
  {
    assert Nib(15) == X(L, L, L, L);
    assert Bit(1, 0) && !Bit(1, 1) && !Bit(1, 2);
  }

  lemma FetchBreq(rom: Rom, pc: u32)
    requires SameRows(rom.table) && pc < FLASH_SIZE && rom.flash[pc] == BREQ_1
    ensures Fetch(rom, pc) == Ok(Branch(1, true, 1))
  {
    hide Fetch, SameRows, Opcode, WordOf;
    BreqWord();
    FetchIff(rom, pc, Branch(1, true, 1));
  }

  lemma PopWord()
    ensures Opcode(Pop(0)).Some? && WordOf(Opcode(Pop(0)).value) == POP_R0
  {
  }

  lemma FetchPop(rom: Rom, pc: u32)
    requires SameRows(rom.table) && pc < FLASH_SIZE && rom.flash[pc] == POP_R0
    ensures Fetch(rom, pc) == Ok(Pop(0))
  {
    hide Fetch, SameRows, Opcode, WordOf;
    PopWord();
    FetchIff(rom, pc, Pop(0));
  }

  lemma EorWord()
    ensures Opcode(Logic(XorOp, 1, 1)).Some? && WordOf(Opcode(Logic(XorOp, 1, 1)).value) == EOR_R1_R1
  {
  }

  lemma FetchEor(rom: Rom, pc: u32)
    requires SameRows(rom.table) && pc < FLASH_SIZE && rom.flash[pc] == EOR_R1_R1
    ensures Fetch(rom, pc) == Ok(Logic(XorOp, 1, 1))
  {
    hide Fetch, SameRows, Opcode, WordOf;
    EorWord();
    FetchIff(rom, pc, Logic(XorOp, 1, 1));
  }

  lemma OutWord()
    ensures Opcode(Out(1, SREG - IO_BASE)).Some? && WordOf(Opcode(Out(1, SREG - IO_BASE)).value) == OUT_SREG_R1
  {
  }

  lemma FetchOut(rom: Rom, pc: u32)
    requires SameRows(rom.table) && pc < FLASH_SIZE && rom.flash[pc] == OUT_SREG_R1
    ensures Fetch(rom, pc) == Ok(Out(1, SREG - IO_BASE))
  {
    hide Fetch, SameRows, Opcode, WordOf;
    OutWord();
    FetchIff(rom, pc, Out(1, SREG - IO_BASE));
  }

  lemma IdleWord()
    ensures Opcode(RelJump(-1, false)).Some? && WordOf(Opcode(RelJump(-1, false)).value) == RJMP_BACK
  {
    assert Nib(15) == Nib(255) == Nib(4095) == X(L, L, L, L);
    assert -1 % 4096 == 4095;
  }

  lemma FetchIdle(rom: Rom, pc: u32)
    requires SameRows(rom.table) && pc < FLASH_SIZE && rom.flash[pc] == RJMP_BACK
    ensures Fetch(rom, pc) == Ok(RelJump(-1, false))
  {
    hide Fetch, SameRows, Opcode, WordOf;
    IdleWord();
    FetchIff(rom, pc, RelJump(-1, false));
  }

  lemma AddWord()
    ensures Opcode(Add(0, 1, false)).Some? && WordOf(Opcode(Add(0, 1, false)).value) == ADD_R0_R1
  {
  }

  lemma FetchAdd(rom: Rom, pc: u32)
    requires SameRows(rom.table) && pc < FLASH_SIZE && rom.flash[pc] == ADD_R0_R1
    ensures Fetch(rom, pc) == Ok(Add(0, 1, false))
  {
    hide Fetch, SameRows, Opcode, WordOf;
    AddWord();
    FetchIff(rom, pc, Add(0, 1, false));
  }
}
