/**
 Where each instruction that jumps, calls, returns or skips sends the program
 counter, and how a return address lies on the stack.

 Targets are word addresses.  Backward branches are covered: a target below the
 branch is reached like one above it.
 */
module ControlLaws {
  import opened Bytes
  import opened Isa
  import opened Cpu
  import opened DecodeTable
  import opened Assembler
  import opened Opcodes
  import opened Words
  import opened Laws
  import opened DataLaws

  /** From s to t: to the given address, with memory as it was. */
  predicate GoesTo(s: State, t: State, pc: int) {
    t.mem == s.mem && t.pc == pc && !t.skip
  }

  /** The address x as 32 bits count it. */
  function Around(x: int): (a: int) {
    if x < 0 then x + 0x1_0000_0000 else x
  }

  lemma WrapNear(x: int)
    requires -0x1000 <= x < 0x100_0000
    ensures Wrap(x) == Around(x)
  {
  }

  /** A word that has been fetched says how far it jumps in seven or twelve bits. */
  lemma OffsetsNear(rom: Rom, pc: u32, i: Insn)
    requires SameRows(rom.table) && Fetch(rom, pc) == Ok(i) && (i.Branch? || i.RelJump?)
    ensures -2048 <= i.offset < 2048 && (i.Branch? ==> -64 <= i.offset < 64)
  {
    hide Fetch, SameRows, WordOf;
    FetchIff(rom, pc, i);
  }

  // ----- jumps and branches -----

  /** BRBS and BRBC. */
  lemma BranchLaw(rom: Rom, s: State, b: bitno, value: bool, offset: int)
    requires SameRows(rom.table) && Runs(rom, s, Branch(b, value, offset))
    ensures Step(rom, s).Ok? && -64 <= offset < 64
    ensures GoesTo(s, Step(rom, s).value,
                   if Bit(s.mem[0x5f], b) == value then Around(s.pc + 1 + offset) else s.pc + 1)
  {
    hide Fetch, Bit, Has, BitAt, Unpack, Wrap, SameRows;
    OffsetsNear(rom, s.pc, Branch(b, value, offset));
    FetchedInFlash(rom, s.pc);
    BitOfUnpack(s.mem[SREG], b);
    WrapNear(s.pc + 1 + offset);
    WrapNear(s.pc + 1);
  }

  /** RJMP. */
  lemma JumpLaw(rom: Rom, s: State, offset: int)
    requires SameRows(rom.table) && Runs(rom, s, RelJump(offset, false))
    ensures Step(rom, s).Ok? && -2048 <= offset < 2048
    ensures GoesTo(s, Step(rom, s).value, Around(s.pc + 1 + offset))
  {
    hide Fetch, Wrap, SameRows;
    OffsetsNear(rom, s.pc, RelJump(offset, false));
    FetchedInFlash(rom, s.pc);
    WrapNear(s.pc + 1 + offset);
  }

  /** A branch assembled for a target up to 64 words away, forward or back, is taken to that target. */
  lemma BranchReaches(rom: Rom, s: State, b: bitno, value: bool, target: u32)
    requires SameRows(rom.table) && !s.skip && -64 <= target - s.pc - 1 < 64
    requires Stands(rom.flash, s.pc, Encode(Branch(b, value, target - s.pc - 1)))
    requires Bit(s.mem[0x5f], b) == value
    ensures Step(rom, s).Ok? && GoesTo(s, Step(rom, s).value, target)
  {
    hide Fetch, Step, SameRows, WordOf, Stands, Bit;
    FetchEncoded(rom, s.pc, Branch(b, value, target - s.pc - 1));
    BranchLaw(rom, s, b, value, target - s.pc - 1);
  }

  /** RJMP assembled for a target up to 2048 words away, forward or back, goes to that target. */
  lemma JumpReaches(rom: Rom, s: State, target: u32)
    requires SameRows(rom.table) && !s.skip && -2048 <= target - s.pc - 1 < 2048
    requires Stands(rom.flash, s.pc, Encode(RelJump(target - s.pc - 1, false)))
    ensures Step(rom, s).Ok? && GoesTo(s, Step(rom, s).value, target)
  {
    hide Fetch, Step, SameRows, WordOf, Stands, Nib;
    FetchEncoded(rom, s.pc, RelJump(target - s.pc - 1, false));
    JumpLaw(rom, s, target - s.pc - 1);
  }

  /** The idle loop RJMP .-2, the word 0xcfff, changes nothing but the count however often it runs. */
  lemma {:induction false} Idles(rom: Rom, s: State, n: nat)
    requires SameRows(rom.table) && !s.skip && s.pc < FLASH_SIZE && rom.flash[s.pc] == 0xcfff
    ensures Run(rom, s, n) == Ok(s.(insns := s.insns + n))
  {
    hide Fetch, Step, SameRows;
    if n > 0 {
      Idles(rom, s, n - 1);
      IdleStep(rom, s.(insns := s.insns + (n - 1)));
    }
  }

  lemma IdleStep(rom: Rom, s: State)
    requires SameRows(rom.table) && !s.skip && s.pc < FLASH_SIZE && rom.flash[s.pc] == 0xcfff
    ensures Step(rom, s) == Ok(s.(insns := s.insns + 1))
  {
    hide Fetch, SameRows, AluMem, PushPc, Wrap;
    FetchIdle(rom, s.pc);
    WrapSmall(s.pc);
  }

  /** JMP: the six high bits count only with a 22-bit program counter. */
  lemma LongJumpLaw(rom: Rom, s: State, high: byte, addr: word)
    requires Runs(rom, s, Jmp(high, addr))
    ensures Step(rom, s).Ok?
    ensures GoesTo(s, Step(rom, s).value, addr as int + if s.pc22 then 0x1_0000 * high as int else 0)
  {
    hide Fetch;
  }

  /** IJMP goes to Z; EIJMP to Z extended by EIND, at 0x5c, and only with a 22-bit program counter. */
  lemma IndJumpLaw(rom: Rom, s: State, ext: bool)
    requires Runs(rom, s, IndJump(ext, false))
    ensures if ext && !s.pc22 then Step(rom, s) == Abort(IllegalOperands)
      else Step(rom, s).Ok?
           && GoesTo(s, Step(rom, s).value, ZOf(s) + if ext then 0x1_0000 * s.mem[0x5c] as int else 0)
  {
    hide Fetch, PushPc, AluMem;
  }

  // ----- skips -----

  /** A skip instruction with the given condition: past the next instruction, of one word or two, or on to it. */
  predicate Skips(rom: Rom, s: State, condition: bool) {
    if !condition then Step(rom, s).Ok? && GoesTo(s, Step(rom, s).value, s.pc + 1)
    else
      s.pc + 1 < 0x1_0000_0000 &&
      match Fetch(rom, s.pc + 1)
      case Abort(why) => Step(rom, s) == Abort(why)
      case Ok(next) =>
        && Step(rom, s).Ok?
        && GoesTo(s, Step(rom, s).value,
                s.pc + 2 + if next.Lds? || next.Sts? || next.Jmp? || next.Call? then 1 else 0)
  }

  lemma SkipRuns(rom: Rom, s: State, i: Insn)
    requires Runs(rom, s, i) && IsSkipInsn(i)
    ensures Skips(rom, s, SkipAfter(i, s.mem))
  {
    hide Fetch, Wrap, MemAfter, PcAfter, Faults, SkipAfter;
    SkipShape(rom, i, s);
    FetchedInFlash(rom, s.pc);
    WrapSmall(s.pc + 1);
    WrapSmall(s.pc + 2);
    WrapSmall(s.pc + 3);
  }

  /** CPSE. */
  lemma SkipEqLaw(rom: Rom, s: State, d: reg, r: reg)
    requires Runs(rom, s, SkipEq(d, r))
    ensures Skips(rom, s, s.mem[d] == s.mem[r])
  {
    hide Fetch, Step, Skips;
    SkipRuns(rom, s, SkipEq(d, r));
  }

  /** SBIC and SBIS. */
  lemma SkipIoLaw(rom: Rom, s: State, port: lowport, b: bitno, value: bool)
    requires Runs(rom, s, SkipIo(port, b, value))
    ensures Skips(rom, s, Bit(s.mem[0x20 + port], b) == value)
  {
    hide Fetch, Step, Skips, Bit, Has, Unpack, BitAt;
    SkipRuns(rom, s, SkipIo(port, b, value));
    BitOfUnpack(s.mem[IO_BASE + port], b);
  }

  /** SBRC and SBRS. */
  lemma SkipBitLaw(rom: Rom, s: State, d: reg, b: bitno, value: bool)
    requires Runs(rom, s, SkipBit(d, b, value))
    ensures Skips(rom, s, Bit(s.mem[d], b) == value)
  {
    hide Fetch, Step, Skips, Bit, Has, Unpack, BitAt;
    SkipRuns(rom, s, SkipBit(d, b, value));
    BitOfUnpack(s.mem[d], b);
  }

  // ----- calls and returns -----

  /** The address k places below sp, and the one a pop reads k places above it: SP wraps, the address read does not. */
  function Below(sp: nat, k: nat): (a: nat)
    requires sp < 0x1_0000
    ensures a < 0x1_0000
  {
    (sp - k) % 0x1_0000
  }

  function Above(sp: nat, k: nat): (a: nat)
    requires sp < 0x1_0000
    ensures 0 < a <= 0x1_0000
  {
    (sp + k) % 0x1_0000 + 1
  }

  /** The cells a call writes, and those a return reads, are not those of SP. */
  predicate CallClear(s: State) {
    var sp := SpOf(s);
    && Below(sp, 0) !in {0x5d, 0x5e} && Below(sp, 1) !in {0x5d, 0x5e}
    && (s.pc22 ==> Below(sp, 2) !in {0x5d, 0x5e})
  }

  predicate ReturnClear(s: State) {
    var sp := SpOf(s);
    && Above(sp, 0) !in {0x5d, 0x5e} && Above(sp, 1) !in {0x5d, 0x5e}
    && (s.pc22 ==> Above(sp, 2) !in {0x5d, 0x5e})
  }

  /** From s to t: two or three bytes of ra are pushed, the lowest first, and SP is below them. */
  predicate ReturnPushed(s: State, t: State, ra: nat) {
    var sp := SpOf(s);
    && SpOf(t) == Below(sp, if s.pc22 then 3 else 2)
    && t.mem[Below(sp, 0)] as int == ra % 256 && t.mem[Below(sp, 1)] as int == ra / 256 % 256
    && (s.pc22 ==> t.mem[Below(sp, 2)] as int == ra / 0x1_0000)
    && Leaves(s, t, {0x5d, 0x5e, Below(sp, 0) as int, Below(sp, 1) as int}
                    + if s.pc22 then {Below(sp, 2) as int} else {})
  }

  lemma Pushed(m: Memory, b: byte)
    requires Sp(m) !in {0x5d, 0x5e}
    ensures var r := PushByte(m, b);
      && Sp(r) == Below(Sp(m), 1) && r[Sp(m)] == b
      && forall x | 0 <= x < MEM_SIZE && x != Sp(m) && x != SP_LO && x != SP_HI :: r[x] == m[x]
  {
  }

  lemma BelowTwice(sp: nat)
    requires sp < 0x1_0000
    ensures Below(sp, 0) == sp && Below(Below(sp, 1), 1) == Below(sp, 2) && Below(Below(sp, 2), 1) == Below(sp, 3)
    ensures Below(sp, 1) != sp && Below(sp, 2) != sp && Below(sp, 1) != Below(sp, 2)
  {
  }

  lemma PushedPc(s: State, t: State, ra: u32)
    requires CallClear(s) && ra < 0x100_0000 && t.mem == PushPc(s.mem, s.pc22, ra)
    ensures ReturnPushed(s, t, ra)
  {
    hide PushByte, Below;
    var m := s.mem;
    var m1 := PushByte(m, ra % 256);
    var m2 := PushByte(m1, ra / 256 % 256);
    BelowTwice(Sp(m));
    Pushed(m, ra % 256);
    Pushed(m1, ra / 256 % 256);
    if s.pc22 {
      Pushed(m2, ra / 0x1_0000 % 256);
    }
  }

  /** CALL, not writing over SP. */
  lemma CallLaw(rom: Rom, s: State, high: byte, addr: word)
    requires Runs(rom, s, Call(high, addr)) && CallClear(s)
    ensures Step(rom, s).Ok?
    ensures var t := Step(rom, s).value;
      && ReturnPushed(s, t, s.pc + 2) && !t.skip
      && t.pc == addr as int + if s.pc22 then 0x1_0000 * high as int else 0
  {
    hide Fetch, PushPc, AluMem, Wrap, ReturnPushed, CallClear;
    FetchedInFlash(rom, s.pc);
    WrapSmall(s.pc + 2);
    PushedPc(s, Step(rom, s).value, s.pc + 2);
  }

  /** RCALL. */
  lemma RelCallLaw(rom: Rom, s: State, offset: int)
    requires SameRows(rom.table) && Runs(rom, s, RelJump(offset, true)) && CallClear(s)
    ensures Step(rom, s).Ok? && -2048 <= offset < 2048
    ensures var t := Step(rom, s).value;
      ReturnPushed(s, t, s.pc + 1) && t.pc == Around(s.pc + 1 + offset) && !t.skip
  {
    hide Fetch, PushPc, AluMem, Wrap, SameRows, ReturnPushed, CallClear;
    OffsetsNear(rom, s.pc, RelJump(offset, true));
    FetchedInFlash(rom, s.pc);
    WrapSmall(s.pc + 1);
    WrapNear(s.pc + 1 + offset);
    PushedPc(s, Step(rom, s).value, s.pc + 1);
  }

  /** ICALL and EICALL. */
  lemma IndCallLaw(rom: Rom, s: State, ext: bool)
    requires Runs(rom, s, IndJump(ext, true)) && CallClear(s)
    ensures if ext && !s.pc22 then Step(rom, s) == Abort(IllegalOperands)
      else Step(rom, s).Ok?
           && var t := Step(rom, s).value;
              && ReturnPushed(s, t, s.pc + 1) && !t.skip
              && t.pc == ZOf(s) + if ext then 0x1_0000 * s.mem[0x5c] as int else 0
  {
    hide Fetch, PushPc, AluMem, Wrap, ReturnPushed, CallClear;
    FetchedInFlash(rom, s.pc);
    WrapSmall(s.pc + 1);
    if Step(rom, s).Ok? {
      PushedPc(s, Step(rom, s).value, s.pc + 1);
    }
  }

  /** The address two or three bytes above SP spell, highest byte first. */
  function Spelt(m: Memory, sp: nat, pc22: bool): (a: int)
    requires sp < 0x1_0000
  {
    var b1, b2, b3 := m[Above(sp, 0)], m[Above(sp, 1)], m[Above(sp, 2)];
    if pc22 then (0x1_0000 * b1 as int + 256 * b2 as int + b3 as int) % 0x40_0000 else 256 * b1 as int + b2 as int
  }

  lemma Popped(m: Memory)
    ensures var r := PopMem(m);
      && Sp(r) == (Sp(m) + 1) % 0x1_0000 && (Sp(m) + 1 !in {0x5d, 0x5e} ==> PopByte(m) == m[Sp(m) + 1])
      && forall x | 0 <= x < MEM_SIZE && x != SP_LO && x != SP_HI :: r[x] == m[x]
  {
  }

  lemma AboveTwice(sp: nat)
    requires sp < 0x1_0000
    ensures Above(sp, 0) == sp + 1 && Above((sp + 1) % 0x1_0000, 0) == Above(sp, 1)
    ensures ((sp + 1) % 0x1_0000 + 1) % 0x1_0000 == (sp + 2) % 0x1_0000
    ensures ((sp + 2) % 0x1_0000 + 1) % 0x1_0000 == (sp + 3) % 0x1_0000
    ensures (sp + 1) % 0x1_0000 + 1 == Above(sp, 1) && (sp + 2) % 0x1_0000 + 1 == Above(sp, 2)
  {
  }

  lemma PoppedPc(s: State)
    requires ReturnClear(s)
    ensures var sp, r := SpOf(s), PopPcMem(s.mem, s.pc22);
      && Sp(r) == (sp + if s.pc22 then 3 else 2) % 0x1_0000
      && PopPc(s.mem, s.pc22) == Spelt(s.mem, sp, s.pc22)
      && forall x | 0 <= x < MEM_SIZE && x != SP_LO && x != SP_HI :: r[x] == s.mem[x]
  {
    hide PopMem, PopByte, Above, Sp;
    SpIs(s);
    AboveTwice(SpOf(s));
    Popped(s.mem);
    Popped(PopMem(s.mem));
    Popped(PopMem(PopMem(s.mem)));
  }

  lemma SpIs(s: State)
    ensures Sp(s.mem) == SpOf(s)
  {
  }

  /** RET and RETI take the address from above SP, its highest byte first; RETI then sets I and leaves the other
      flags. */
  lemma RetLaw(rom: Rom, s: State, reti: bool)
    requires Runs(rom, s, Ret(reti)) && ReturnClear(s)
    ensures Step(rom, s).Ok?
    ensures var t := Step(rom, s).value;
      && SpOf(t) == (SpOf(s) + if s.pc22 then 3 else 2) % 0x1_0000 && !t.skip
      && t.pc == Spelt(s.mem, SpOf(s), s.pc22)
      && (if reti then WithBit(s.mem[0x5f], t.mem[0x5f], 7, true) else t.mem[0x5f] == s.mem[0x5f])
      && Leaves(s, t, {0x5d, 0x5e, 0x5f})
  {
    hide Fetch, PopPc, PopPcMem, AluMem, Bit, Pack, Unpack, Assign, BitAt, WithBit, Spelt, ReturnClear;
    PoppedPc(s);
    MaskNames();
    AssignedBit(s.mem[SREG], 7, true);
  }
}
