/**
 Which bytes of data memory one instruction may change.

 Since registers, SP, SREG and the RAMP bytes are memory cells, this footprint
 is what every whole-run argument about memory rests on.
 */
module Frame {
  import opened Bytes
  import opened Isa
  import opened Alu
  import opened Cpu

  predicate IsSp(a: int) {
    a == SP_LO || a == SP_HI
  }

  /** The cells written by pushing n bytes from stack pointer sp. */
  predicate Pushed(sp: word, n: nat, a: int) {
    || IsSp(a)
    || (n >= 1 && a == sp)
    || (n >= 2 && a == (sp as int - 1) % 0x1_0000)
    || (n >= 3 && a == (sp as int - 2) % 0x1_0000)
  }

  function PcBytes(pc22: bool): (n: nat) {
    if pc22 then 3 else 2
  }

  predicate AluMayWrite(i: Insn, a: int) {
    match i
    case Movw(p, _) => a == p || a == p + 1
    case Mul(_, _, _, _, _) => a == 0 || a == 1 || a == SREG
    case Add(d, _, _) => a == d || a == SREG
    case Sub(d, _, _, store) => (store && a == d) || a == SREG
    case SubImm(d, _, _, store) => (store && a == d) || a == SREG
    case Logic(_, d, _) => a == d || a == SREG
    case LogicImm(_, d, _) => a == d || a == SREG
    case Mov(d, _) => a == d
    case Ldi(d, _) => a == d
    case Com(d) => a == d || a == SREG
    case Neg(d) => a == d || a == SREG
    case Swap(d) => a == d
    case Inc(d) => a == d || a == SREG
    case Dec(d) => a == d || a == SREG
    case Shift(_, d) => a == d || a == SREG
    case Adiw(p, _) => a == p || a == p + 1 || a == SREG
    case Sbiw(p, _) => a == p || a == p + 1 || a == SREG
    case In(d, _) => a == d
    case IoBit(port, _, _) => a == IO_BASE + port
    case SetFlag(_, _) => a == SREG
    case Bld(d, _) => a == d
    case Bst(_, _) => a == SREG
    case Des(round) => round >= 15 && 0 <= a < 8
    case _ => false
  }

  /** The cells of pointer p that writing it back replaces. */
  predicate PutsPointer(p: Pointer, max64k: bool, max256b: bool, a: int) {
    || a == PairReg(p)
    || (!max256b && a == PairReg(p) + 1)
    || (!max256b && !max64k && a == RampReg(p))
  }

  /** Instruction i, executed in state s, writes the byte at address a. */
  predicate MayWrite(i: Insn, s: State, a: int) {
    match i
    case LdSt(p, mode, d, store) =>
      || a == (if store then Target(s, p, mode) else d)
      || (!mode.Disp? && PutsPointer(p, s.max64k, s.max256b, a))
    case Lds(d, _) => a == d
    case Sts(_, addr) => a == StsAddr(s, addr)
    case Lpm(d, _, inc) => a == d || (inc && (a == REGP_Z || a == REGP_Z + 1))
    case Xch(_, d) => a == d || a == WordAt(s.mem, REGP_Z)
    case Out(_, port) => a == IO_BASE + port
    case Pop(d) => a == d || IsSp(a)
    case Push(_) => Pushed(Sp(s.mem), 1, a)
    case Call(_, _) => Pushed(Sp(s.mem), PcBytes(s.pc22), a)
    case RelJump(_, call) => call && Pushed(Sp(s.mem), PcBytes(s.pc22), a)
    case IndJump(_, call) => call && Pushed(Sp(s.mem), PcBytes(s.pc22), a)
    case Ret(reti) => IsSp(a) || (reti && a == SREG)
    case _ => AluMayWrite(i, a)
  }

  lemma AluFrame(rom: Rom, i: Insn, m: Memory, a: int)
    requires 0 <= a < MEM_SIZE && !AluMayWrite(i, a)
    ensures AluMem(rom, i, m)[a] == m[a]
  {
    hide Pack, Unpack, Flags, AddFlags, SubFlags, StepFlags, LogicFlags, ShiftFlags, WideFlags, Apply, Product, Shifted,
         Swapped, Assign, Has, BitAt;
  }

  /** SP after a push or a pop, whatever the byte pushed may have overwritten. */
  lemma SpAfter(m: Memory, b: byte)
    ensures Sp(PushByte(m, b)) == (Sp(m) as int - 1) % 0x1_0000
    ensures Sp(PopMem(m)) == (Sp(m) as int + 1) % 0x1_0000
  {
  }

  lemma PushFrame(m: Memory, b: byte, a: int)
    requires 0 <= a < MEM_SIZE && !IsSp(a)
    ensures a != Sp(m) ==> PushByte(m, b)[a] == m[a]
    ensures a == Sp(m) ==> PushByte(m, b)[a] == b
  {
  }

  lemma PopFrame(m: Memory, a: int)
    requires 0 <= a < MEM_SIZE && !IsSp(a)
    ensures PopMem(m)[a] == m[a]
  {
  }

  lemma PushPcFrame(m: Memory, pc22: bool, ra: u32, a: int)
    requires 0 <= a < MEM_SIZE && !Pushed(Sp(m), PcBytes(pc22), a)
    ensures PushPc(m, pc22, ra)[a] == m[a]
  {
    hide PushByte, Sp, SetSp;
    var m1 := PushByte(m, ra % 256);
    var m2 := PushByte(m1, ra / 256 % 256);
    SpAfter(m, ra % 256);
    SpAfter(m1, ra / 256 % 256);
    PushFrame(m, ra % 256, a);
    PushFrame(m1, ra / 256 % 256, a);
    PushFrame(m2, ra / 0x1_0000 % 256, a);
  }

  lemma PopPcFrame(m: Memory, pc22: bool, a: int)
    requires 0 <= a < MEM_SIZE && !IsSp(a)
    ensures PopPcMem(m, pc22)[a] == m[a]
  {
    hide PopMem;
    PopFrame(m, a);
    PopFrame(PopMem(m), a);
    PopFrame(PopMem(PopMem(m)), a);
  }

  lemma LoadStoreFrame(s: State, p: Pointer, mode: Mode, d: reg, store: bool, a: int)
    requires 0 <= a < MEM_SIZE && !MayWrite(LdSt(p, mode, d, store), s, a)
    ensures LoadStore(s, p, mode, d, store)[a] == s.mem[a]
  {
    hide Target;
  }

  predicate IsCallInsn(i: Insn) {
    i.Call? || (i.RelJump? && i.call) || (i.IndJump? && i.call)
  }

  lemma CallMem(rom: Rom, i: Insn, s: State)
    requires IsCallInsn(i)
    ensures MemAfter(rom, i, s) == PushPc(s.mem, s.pc22, Wrap(s.pc + Size(i)))
  {
    hide PushPc, Wrap, AluMem;
  }

  lemma RetMem(rom: Rom, s: State, reti: bool)
    ensures PcAfter(Ret(reti), s) == PopPc(s.mem, s.pc22)
    ensures var m1 := PopPcMem(s.mem, s.pc22);
      MemAfter(rom, Ret(reti), s) == if reti then SetFlags(m1, Assign(Flags(m1), I, true)) else m1
  {
    hide PopPc, PopPcMem, SetFlags, Flags, Assign, AluMem;
  }

  /** An instruction changes nothing outside its footprint. */
  lemma MemFrame(rom: Rom, i: Insn, s: State, a: int)
    requires 0 <= a < MEM_SIZE && !MayWrite(i, s, a)
    ensures MemAfter(rom, i, s)[a] == s.mem[a]
  {
    hide AluMem, AluMayWrite, LoadStore, PushPc, PopPcMem, PopMem, PushByte, Sp, Pack, Unpack, LpmByte, Target,
         LdsAddr, StsAddr, LpmAddr, ApplyXch, WordAt, PopByte;
    if i.LdSt? {
      LoadStoreFrame(s, i.ptr, i.mode, i.d, i.store, a);
    } else if i.Call? {
      PushPcFrame(s.mem, s.pc22, Wrap(s.pc + 2), a);
    } else if i.RelJump? || i.IndJump? {
      if i.call {
        PushPcFrame(s.mem, s.pc22, Wrap(s.pc + 1), a);
      }
    } else if i.Ret? {
      PopPcFrame(s.mem, s.pc22, a);
    } else if i.Pop? {
      PopFrame(s.mem, a);
    } else if i.Push? {
      PushFrame(s.mem, s.mem[i.d], a);
    } else if !i.Lds? && !i.Sts? && !i.Lpm? && !i.Xch? && !i.Out? {
      AluFrame(rom, i, s.mem, a);
    }
  }
}
