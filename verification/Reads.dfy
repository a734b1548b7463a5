/**
 Which bytes of data memory one instruction looks at, the mirror of `Frame`.

 Some of them steer the machine: they decide an address, a branch, a skip or a
 return.  The others only enter the bytes it writes, and `Deps` says which enter
 which.  Two states that agree on what steers the next instruction take the same
 step as far as control goes and write the same cells, and a cell written is the
 same in both if the bytes it is made from are.  Merging flags into SREG makes
 the new SREG from the old one.
 */
module Reads {
  import opened Bytes
  import opened Isa
  import opened Alu
  import opened Cpu
  import opened Frame

  /** The cells that hold pointer p. */
  predicate IsPointer(p: Pointer, max64k: bool, a: int) {
    a == PairReg(p) || a == PairReg(p) + 1 || (!max64k && a == RampReg(p))
  }

  /** The cells n pops from stack pointer sp look at: SP wraps between pops, the address of a pop does not. */
  predicate Popped(sp: word, n: nat, a: int) {
    || IsSp(a)
    || (n >= 1 && a == sp + 1)
    || (n >= 2 && a == (sp as int + 1) % 0x1_0000 + 1)
    || (n >= 3 && a == (sp as int + 2) % 0x1_0000 + 1)
  }

  /** The byte at b decides where instruction i, executed in state s, reads, writes or goes on. */
  predicate Steers(i: Insn, s: State, b: int) {
    match i
    case LdSt(p, _, _, _) => IsPointer(p, s.max64k, b)
    case Lds(_, _) => !s.max64k && b == RAMPD
    case Sts(_, _) => !s.max64k && b == RAMPD
    case Lpm(_, ext, _) => b == REGP_Z || b == REGP_Z + 1 || (ext && b == RAMPZ)
    case Xch(_, _) => b == REGP_Z || b == REGP_Z + 1
    case Pop(_) => IsSp(b)
    case Push(_) => IsSp(b)
    case Call(_, _) => IsSp(b)
    case RelJump(_, call) => call && IsSp(b)
    case IndJump(ext, call) => b == REGP_Z || b == REGP_Z + 1 || (ext && b == EIND) || (call && IsSp(b))
    case Ret(_) => Popped(Sp(s.mem), PcBytes(s.pc22), b)
    case Branch(_, _, _) => b == SREG
    case SkipEq(d, r) => b == d || b == r
    case SkipIo(port, _, _) => b == IO_BASE + port
    case SkipBit(d, _, _) => b == d
    case _ => false
  }

  /** An operation of two registers whose result does not depend on them: EOR or SUB of a register with itself. */
  predicate Cancels(i: Insn) {
    (i.Logic? && i.op == XorOp && i.d == i.r) || (i.Sub? && !i.carry && i.d == i.r)
  }

  /** The byte an ALU instruction leaves at a is made from the byte at b, among others. */
  predicate AluDeps(i: Insn, a: int, b: int) {
    match i
    case Movw(p, from) => b == if a == p then from else from + 1
    case Mul(_, _, _, d, r) => b == d || b == r || (a == SREG && b == SREG)
    case Add(d, r, carry) => b == d || b == r || ((a == SREG || carry) && b == SREG)
    case Sub(d, r, carry, _) =>
      (!Cancels(i) && (b == d || b == r)) || ((a == SREG || carry) && b == SREG)
    case SubImm(d, _, carry, _) => b == d || ((a == SREG || carry) && b == SREG)
    case Logic(_, d, r) => (!Cancels(i) && (b == d || b == r)) || (a == SREG && b == SREG)
    case LogicImm(_, d, _) => b == d || (a == SREG && b == SREG)
    case Mov(_, r) => b == r
    case Com(d) => b == d || (a == SREG && b == SREG)
    case Neg(d) => b == d || (a == SREG && b == SREG)
    case Swap(d) => b == d
    case Inc(d) => b == d || (a == SREG && b == SREG)
    case Dec(d) => b == d || (a == SREG && b == SREG)
    case Shift(op, d) => b == d || ((a == SREG || op == Ror) && b == SREG)
    case Adiw(p, _) => b == p || b == p + 1 || (a == SREG && b == SREG)
    case Sbiw(p, _) => b == p || b == p + 1 || (a == SREG && b == SREG)
    case In(_, port) => b == IO_BASE + port
    case IoBit(port, _, _) => b == IO_BASE + port
    case SetFlag(_, _) => b == SREG
    case Bld(d, _) => b == d || b == SREG
    case Bst(d, _) => b == d || b == SREG
    case Des(_) => 0 <= b < 16 || b == SREG
    case _ => false
  }

  /** The byte instruction i, executed in state s, leaves at a is made from the byte at b, among others. */
  predicate Deps(i: Insn, s: State, a: int, b: int) {
    match i
    case LdSt(p, mode, d, store) =>
      && (mode.Disp? || !PutsPointer(p, s.max64k, s.max256b, a))
      && b == if store then d else Target(s, p, mode)
    case Lds(_, addr) => b == LdsAddr(s, addr)
    case Sts(d, _) => b == d
    case Lpm(_, _, _) => false
    case Xch(_, d) => b == WordAt(s.mem, REGP_Z) || (a != d && b == d)
    case Out(d, _) => b == d
    case Pop(d) => a == d && b == Sp(s.mem) + 1
    case Push(d) => !IsSp(a) && b == d
    case Ret(_) => a == SREG && b == SREG
    case _ => AluDeps(i, a, b)
  }

  /** Instruction i, executed in state s, looks at the byte at address a. */
  predicate MayRead(i: Insn, s: State, a: int) {
    match i
    case LdSt(p, mode, d, store) => IsPointer(p, s.max64k, a) || a == if store then d else Target(s, p, mode)
    case Lds(_, addr) => (!s.max64k && a == RAMPD) || a == LdsAddr(s, addr)
    case Sts(d, _) => (!s.max64k && a == RAMPD) || a == d
    case Lpm(_, ext, _) => a == REGP_Z || a == REGP_Z + 1 || (ext && a == RAMPZ)
    case Xch(_, d) => a == REGP_Z || a == REGP_Z + 1 || a == d || a == WordAt(s.mem, REGP_Z)
    case Out(d, _) => a == d
    case Pop(_) => Popped(Sp(s.mem), 1, a)
    case Push(d) => IsSp(a) || a == d
    case Call(_, _) => IsSp(a)
    case RelJump(_, call) => call && IsSp(a)
    case IndJump(ext, call) => a == REGP_Z || a == REGP_Z + 1 || (ext && a == EIND) || (call && IsSp(a))
    case Ret(reti) => Popped(Sp(s.mem), PcBytes(s.pc22), a) || (reti && a == SREG)
    case Branch(_, _, _) => a == SREG
    case SkipEq(d, r) => a == d || a == r
    case SkipIo(port, _, _) => a == IO_BASE + port
    case SkipBit(d, _, _) => a == d
    case _ => AluMayRead(i, a)
  }

  predicate AluMayRead(i: Insn, a: int) {
    match i
    case Movw(_, from) => a == from || a == from + 1
    case Mul(_, _, _, d, r) => a == d || a == r || a == SREG
    case Add(d, r, _) => a == d || a == r || a == SREG
    case Sub(d, r, _, _) => a == d || a == r || a == SREG
    case SubImm(d, _, _, _) => a == d || a == SREG
    case Logic(_, d, r) => a == d || a == r || a == SREG
    case LogicImm(_, d, _) => a == d || a == SREG
    case Mov(_, r) => a == r
    case Com(d) => a == d || a == SREG
    case Neg(d) => a == d || a == SREG
    case Swap(d) => a == d
    case Inc(d) => a == d || a == SREG
    case Dec(d) => a == d || a == SREG
    case Shift(_, d) => a == d || a == SREG
    case Adiw(p, _) => a == p || a == p + 1 || a == SREG
    case Sbiw(p, _) => a == p || a == p + 1 || a == SREG
    case In(_, port) => a == IO_BASE + port
    case IoBit(port, _, _) => a == IO_BASE + port
    case SetFlag(_, _) => a == SREG
    case Bld(d, _) => a == d || a == SREG
    case Bst(d, _) => a == d || a == SREG
    case Des(round) => round >= 15 && (0 <= a < 16 || a == SREG)
    case _ => false
  }

  /** State t is s but for memory, and holds the same bytes wherever i is steered from. */
  predicate SteersAlike(i: Insn, s: State, t: State) {
    t == s.(mem := t.mem) && forall b | 0 <= b < MEM_SIZE && Steers(i, s, b) :: s.mem[b] == t.mem[b]
  }

  /** The bytes the new byte at a is made from are the same. */
  predicate DepsAlike(i: Insn, s: State, t: State, a: int) {
    forall b | 0 <= b < MEM_SIZE && Deps(i, s, a, b) :: s.mem[b] == t.mem[b]
  }

  lemma ReadsCover(i: Insn, s: State, a: int, b: int)
    requires Steers(i, s, b) || (MayWrite(i, s, a) && Deps(i, s, a, b))
    ensures MayRead(i, s, b)
  {
  }

  // ----- registers and flags -----

  predicate AluDepsAlike(i: Insn, m: Memory, n: Memory, a: int) {
    forall b | 0 <= b < MEM_SIZE && AluDeps(i, a, b) :: m[b] == n[b]
  }

  lemma CancelXor(x: byte, y: byte)
    ensures Apply(XorOp, x, x) == Apply(XorOp, y, y)
  {
    hide Unpack;
  }

  lemma CancelSub(f: Bits, x: byte, y: byte, z: bool)
    ensures SubFlags(f, x, x, 0, z) == SubFlags(f, y, y, 0, z)
  {
    hide ResultFlags, Assign;
  }

  lemma AddAgree(rom: Rom, i: Insn, m: Memory, n: Memory, a: int)
    requires i.Add? && AluDepsAlike(i, m, n, a) && 0 <= a < MEM_SIZE && AluMayWrite(i, a)
    ensures AluMem(rom, i, m)[a] == AluMem(rom, i, n)[a]
  {
    hide Pack, Unpack, AddFlags, Has;
    assert m[i.d] == n[i.d] && m[i.r] == n[i.r] && (a == SREG || i.carry ==> m[SREG] == n[SREG]);
  }

  lemma SubAgree(rom: Rom, i: Insn, m: Memory, n: Memory, a: int)
    requires i.Sub? && AluDepsAlike(i, m, n, a) && 0 <= a < MEM_SIZE && AluMayWrite(i, a)
    ensures AluMem(rom, i, m)[a] == AluMem(rom, i, n)[a]
  {
    hide Pack, Unpack, SubFlags, Has;
    assert a == SREG || i.carry ==> m[SREG] == n[SREG];
    if Cancels(i) {
      CancelSub(Flags(m), m[i.d], n[i.d], Has(Flags(m), Z));
    } else {
      assert m[i.d] == n[i.d] && m[i.r] == n[i.r];
    }
  }

  lemma SubImmAgree(rom: Rom, i: Insn, m: Memory, n: Memory, a: int)
    requires i.SubImm? && AluDepsAlike(i, m, n, a) && 0 <= a < MEM_SIZE && AluMayWrite(i, a)
    ensures AluMem(rom, i, m)[a] == AluMem(rom, i, n)[a]
  {
    hide Pack, Unpack, SubFlags, Has;
    assert m[i.d] == n[i.d] && (a == SREG || i.carry ==> m[SREG] == n[SREG]);
  }

  lemma LogicAgree(rom: Rom, i: Insn, m: Memory, n: Memory, a: int)
    requires (i.Logic? || i.LogicImm?) && AluDepsAlike(i, m, n, a) && 0 <= a < MEM_SIZE && AluMayWrite(i, a)
    ensures AluMem(rom, i, m)[a] == AluMem(rom, i, n)[a]
  {
    hide Pack, Unpack, LogicFlags, Apply;
    assert a == SREG ==> m[SREG] == n[SREG];
    if Cancels(i) {
      CancelXor(m[i.d], n[i.d]);
    } else {
      assert m[i.d] == n[i.d] && (i.Logic? ==> m[i.r] == n[i.r]);
    }
  }

  predicate TwoOperand(i: Insn) {
    i.Add? || i.Sub? || i.SubImm? || i.Logic? || i.LogicImm?
  }

  predicate OneOperand(i: Insn) {
    i.Com? || i.Neg? || i.Inc? || i.Dec?
  }

  lemma ShiftAgree(rom: Rom, i: Insn, m: Memory, n: Memory, a: int)
    requires i.Shift? && AluDepsAlike(i, m, n, a) && 0 <= a < MEM_SIZE && AluMayWrite(i, a)
    ensures AluMem(rom, i, m)[a] == AluMem(rom, i, n)[a]
  {
    hide Pack, Unpack, ShiftFlags, Has;
    assert m[i.d] == n[i.d] && (a == SREG || i.shift == Ror ==> m[SREG] == n[SREG]);
  }

  lemma OneOperandAgree(rom: Rom, i: Insn, m: Memory, n: Memory, a: int)
    requires OneOperand(i) && AluDepsAlike(i, m, n, a) && 0 <= a < MEM_SIZE && AluMayWrite(i, a)
    ensures AluMem(rom, i, m)[a] == AluMem(rom, i, n)[a]
  {
    hide Pack, Unpack, StepFlags, LogicFlags, SubFlags, Assign;
    assert m[i.d] == n[i.d] && (a == SREG ==> m[SREG] == n[SREG]);
  }

  predicate WordSized(i: Insn) {
    i.Adiw? || i.Sbiw? || i.Mul?
  }

  lemma WordSizedAgree(rom: Rom, i: Insn, m: Memory, n: Memory, a: int)
    requires WordSized(i) && AluDepsAlike(i, m, n, a) && 0 <= a < MEM_SIZE && AluMayWrite(i, a)
    ensures AluMem(rom, i, m)[a] == AluMem(rom, i, n)[a]
  {
    hide Pack, Unpack, WideFlags, Product, Assign;
    assert a == SREG ==> m[SREG] == n[SREG];
    if i.Mul? {
      assert m[i.d] == n[i.d] && m[i.r] == n[i.r];
    } else {
      assert m[i.p] == n[i.p] && m[i.p + 1] == n[i.p + 1];
    }
  }

  lemma DesAgree(rom: Rom, i: Insn, m: Memory, n: Memory, a: int)
    requires i.Des? && AluDepsAlike(i, m, n, a) && 0 <= a < MEM_SIZE && AluMayWrite(i, a)
    ensures AluMem(rom, i, m)[a] == AluMem(rom, i, n)[a]
  {
    hide Unpack, Has;
    assert m[8..16] == n[8..16] && m[0..8] == n[0..8];
    assert m[SREG] == n[SREG];
  }

  predicate Bitwise(i: Insn) {
    i.IoBit? || i.SetFlag? || i.Bld? || i.Bst?
  }

  lemma BitwiseAgree(rom: Rom, i: Insn, m: Memory, n: Memory, a: int)
    requires Bitwise(i) && AluDepsAlike(i, m, n, a) && 0 <= a < MEM_SIZE && AluMayWrite(i, a)
    ensures AluMem(rom, i, m)[a] == AluMem(rom, i, n)[a]
  {
    hide Pack, Unpack, Assign, Has, BitAt;
    if i.IoBit? {
      assert m[IO_BASE + i.low] == n[IO_BASE + i.low];
    } else {
      assert m[SREG] == n[SREG] && (!i.SetFlag? ==> m[i.d] == n[i.d]);
    }
  }

  lemma MoveAgree(rom: Rom, i: Insn, m: Memory, n: Memory, a: int)
    requires !TwoOperand(i) && !OneOperand(i) && !i.Shift? && !WordSized(i) && !i.Des? && !Bitwise(i)
    requires AluDepsAlike(i, m, n, a) && 0 <= a < MEM_SIZE && AluMayWrite(i, a)
    ensures AluMem(rom, i, m)[a] == AluMem(rom, i, n)[a]
  {
    hide Swapped;
  }

  lemma AluAgree(rom: Rom, i: Insn, m: Memory, n: Memory, a: int)
    requires AluDepsAlike(i, m, n, a) && 0 <= a < MEM_SIZE && AluMayWrite(i, a)
    ensures AluMem(rom, i, m)[a] == AluMem(rom, i, n)[a]
  {
    hide AluDepsAlike, AluMayWrite, AluMem;
    if i.Add? {
      AddAgree(rom, i, m, n, a);
    } else if i.Sub? {
      SubAgree(rom, i, m, n, a);
    } else if i.SubImm? {
      SubImmAgree(rom, i, m, n, a);
    } else if i.Logic? || i.LogicImm? {
      LogicAgree(rom, i, m, n, a);
    } else if i.Shift? {
      ShiftAgree(rom, i, m, n, a);
    } else if OneOperand(i) {
      OneOperandAgree(rom, i, m, n, a);
    } else if WordSized(i) {
      WordSizedAgree(rom, i, m, n, a);
    } else if i.Des? {
      DesAgree(rom, i, m, n, a);
    } else if Bitwise(i) {
      BitwiseAgree(rom, i, m, n, a);
    } else {
      MoveAgree(rom, i, m, n, a);
    }
  }

  // ----- the stack -----

  predicate SpAlike(m: Memory, n: Memory) {
    m[SP_LO] == n[SP_LO] && m[SP_HI] == n[SP_HI]
  }

  lemma PushAgree(m: Memory, n: Memory, b: byte, a: int)
    requires SpAlike(m, n) && 0 <= a < MEM_SIZE
    ensures SpAlike(PushByte(m, b), PushByte(n, b)) && Sp(m) == Sp(n)
    ensures IsSp(a) || a == Sp(m) || m[a] == n[a] ==> PushByte(m, b)[a] == PushByte(n, b)[a]
  {
  }

  lemma PushPcAgree(m: Memory, n: Memory, pc22: bool, ra: u32, a: int)
    requires SpAlike(m, n) && 0 <= a < MEM_SIZE && (Pushed(Sp(m), PcBytes(pc22), a) || m[a] == n[a])
    ensures PushPc(m, pc22, ra)[a] == PushPc(n, pc22, ra)[a]
  {
    hide PushByte, Sp, SpAlike;
    var b0, b1, b2 := ra % 256, ra / 256 % 256, ra / 0x1_0000 % 256;
    var m1, n1 := PushByte(m, b0), PushByte(n, b0);
    var m2, n2 := PushByte(m1, b1), PushByte(n1, b1);
    SpAfter(m, b0);
    SpAfter(m1, b1);
    PushAgree(m, n, b0, a);
    PushAgree(m1, n1, b1, a);
    PushAgree(m2, n2, b2, a);
  }

  lemma PopAgree(m: Memory, n: Memory, a: int)
    requires SpAlike(m, n) && 0 <= a < MEM_SIZE
    ensures SpAlike(PopMem(m), PopMem(n)) && Sp(m) == Sp(n)
    ensures m[Sp(m) + 1] == n[Sp(m) + 1] ==> PopByte(m) == PopByte(n)
    ensures IsSp(a) || m[a] == n[a] ==> PopMem(m)[a] == PopMem(n)[a]
  {
  }

  lemma PopPcAgree(m: Memory, n: Memory, pc22: bool)
    requires SpAlike(m, n)
    requires forall a | 0 <= a < MEM_SIZE && Popped(Sp(m), PcBytes(pc22), a) :: m[a] == n[a]
    ensures PopPc(m, pc22) == PopPc(n, pc22)
  {
    hide PopMem, PopByte, Sp, SpAlike;
    var a1, a2, a3 := Sp(m) + 1, (Sp(m) as int + 1) % 0x1_0000 + 1, (Sp(m) as int + 2) % 0x1_0000 + 1;
    var m1, n1 := PopMem(m), PopMem(n);
    assert m[a1] == n[a1] && m[a2] == n[a2];
    SpAfter(m, 0);
    PopAgree(m, n, a2);
    PopAgree(m1, n1, a2);
    if pc22 {
      assert m[a3] == n[a3];
      SpAfter(m1, 0);
      PopAgree(m, n, a3);
      PopAgree(m1, n1, a3);
      PopAgree(PopMem(m1), PopMem(n1), a3);
    }
  }

  lemma PopPcMemAgree(m: Memory, n: Memory, pc22: bool, a: int)
    requires SpAlike(m, n) && 0 <= a < MEM_SIZE && (IsSp(a) || m[a] == n[a])
    ensures PopPcMem(m, pc22)[a] == PopPcMem(n, pc22)[a]
  {
    hide PopMem, SpAlike;
    PopAgree(m, n, a);
    PopAgree(PopMem(m), PopMem(n), a);
    PopAgree(PopMem(PopMem(m)), PopMem(PopMem(n)), a);
  }

  lemma RetAgree(s: State, t: State, reti: bool, a: int)
    requires SteersAlike(Ret(reti), s, t) && 0 <= a < MEM_SIZE
    ensures PopPc(s.mem, s.pc22) == PopPc(t.mem, t.pc22)
    ensures IsSp(a) || s.mem[a] == t.mem[a] ==> PopPcMem(s.mem, s.pc22)[a] == PopPcMem(t.mem, t.pc22)[a]
  {
    hide PopPc, PopPcMem, Sp;
    assert s.mem[SP_LO] == t.mem[SP_LO] && s.mem[SP_HI] == t.mem[SP_HI];
    PopPcAgree(s.mem, t.mem, s.pc22);
    if IsSp(a) || s.mem[a] == t.mem[a] {
      PopPcMemAgree(s.mem, t.mem, s.pc22, a);
    }
  }

  // ----- pointers -----

  lemma TargetAgree(s: State, t: State, p: Pointer, mode: Mode)
    requires t == s.(mem := t.mem)
    requires forall a | 0 <= a < MEM_SIZE && IsPointer(p, s.max64k, a) :: s.mem[a] == t.mem[a]
    ensures Target(s, p, mode) == Target(t, p, mode)
  {
    hide Clip;
    assert PointerAt(s.mem, p, s.max64k) == PointerAt(t.mem, p, s.max64k) by {
      assert s.mem[PairReg(p)] == t.mem[PairReg(p)] && s.mem[PairReg(p) + 1] == t.mem[PairReg(p) + 1];
    }
  }

  lemma PutPointerAgree(m: Memory, n: Memory, p: Pointer, x: nat, max64k: bool, max256b: bool, a: int)
    requires x <= MEM_SIZE && 0 <= a < MEM_SIZE && (PutsPointer(p, max64k, max256b, a) || m[a] == n[a])
    ensures PutPointer(m, p, x, max64k, max256b)[a] == PutPointer(n, p, x, max64k, max256b)[a]
  {
  }

  lemma LdstAgree(rom: Rom, i: Insn, s: State, t: State, a: int)
    requires i.LdSt? && SteersAlike(i, s, t) && DepsAlike(i, s, t, a) && 0 <= a < MEM_SIZE && MayWrite(i, s, a)
    ensures MemAfter(rom, i, s)[a] == MemAfter(rom, i, t)[a]
  {
    hide Target, PutPointer, PutsPointer, MemAfter;
    LdstMem(rom, i, s);
    LdstMem(rom, i, t);
    TargetAgree(s, t, i.ptr, i.mode);
    var x, d, m, n := Target(s, i.ptr, i.mode), i.d, s.mem, t.mem;
    var m1 := if i.store then m[x := m[d]] else m[d := m[x]];
    var n1 := if i.store then n[x := n[d]] else n[d := n[x]];
    if i.mode.Disp? || !PutsPointer(i.ptr, s.max64k, s.max256b, a) {
      assert if i.store then m[d] == n[d] else m[x] == n[x];
      assert m1[a] == n1[a];
    }
    if !i.mode.Disp? {
      PutPointerAgree(m1, n1, i.ptr, if i.mode.PostInc? then x + 1 else x, s.max64k, s.max256b, a);
    }
  }

  lemma LdstMem(rom: Rom, i: Insn, s: State)
    requires i.LdSt?
    ensures MemAfter(rom, i, s) == LoadStore(s, i.ptr, i.mode, i.d, i.store)
  {
    hide LoadStore, AluMem;
  }

  // ----- any instruction -----

  predicate Absolute(i: Insn) {
    i.Lds? || i.Sts? || i.Out?
  }

  lemma AbsoluteAgree(rom: Rom, i: Insn, s: State, t: State, a: int)
    requires Absolute(i) && SteersAlike(i, s, t) && DepsAlike(i, s, t, a) && 0 <= a < MEM_SIZE && MayWrite(i, s, a)
    ensures MemAfter(rom, i, s)[a] == MemAfter(rom, i, t)[a]
  {
    hide AluMem;
    if i.Lds? || i.Sts? {
      assert !s.max64k ==> s.mem[RAMPD] == t.mem[RAMPD];
    }
  }

  predicate ThroughZ(i: Insn) {
    i.Lpm? || i.Xch?
  }

  lemma ThroughZAgree(rom: Rom, i: Insn, s: State, t: State, a: int)
    requires ThroughZ(i) && SteersAlike(i, s, t) && DepsAlike(i, s, t, a) && 0 <= a < MEM_SIZE && MayWrite(i, s, a)
    ensures MemAfter(rom, i, s)[a] == MemAfter(rom, i, t)[a]
  {
    hide LpmByte, ApplyXch, AluMem;
    assert s.mem[REGP_Z] == t.mem[REGP_Z] && s.mem[REGP_Z + 1] == t.mem[REGP_Z + 1];
  }

  lemma PushPopAgree(rom: Rom, i: Insn, s: State, t: State, a: int)
    requires i.Pop? || i.Push?
    requires SteersAlike(i, s, t) && DepsAlike(i, s, t, a) && 0 <= a < MEM_SIZE && MayWrite(i, s, a)
    ensures MemAfter(rom, i, s)[a] == MemAfter(rom, i, t)[a]
  {
    hide PushByte, PopMem, PopByte, Sp, AluMem;
    assert s.mem[SP_LO] == t.mem[SP_LO] && s.mem[SP_HI] == t.mem[SP_HI];
    if i.Pop? {
      assert a == i.d ==> s.mem[Sp(s.mem) + 1] == t.mem[Sp(s.mem) + 1];
      PopAgree(s.mem, t.mem, a);
    } else {
      assert !IsSp(a) ==> s.mem[i.d] == t.mem[i.d];
      PushAnyAgree(s.mem, t.mem, s.mem[i.d], t.mem[i.d], a);
    }
  }

  /** SP after a push does not depend on the byte pushed. */
  lemma PushAnyAgree(m: Memory, n: Memory, b: byte, c: byte, a: int)
    requires SpAlike(m, n) && 0 <= a < MEM_SIZE && (IsSp(a) || (a == Sp(m) && b == c))
    ensures PushByte(m, b)[a] == PushByte(n, c)[a]
  {
  }

  lemma CallAgree(rom: Rom, i: Insn, s: State, t: State, a: int)
    requires IsCallInsn(i) && SteersAlike(i, s, t) && 0 <= a < MEM_SIZE && MayWrite(i, s, a)
    ensures MemAfter(rom, i, s)[a] == MemAfter(rom, i, t)[a]
  {
    hide PushPc, MemAfter, Wrap, Size;
    assert s.mem[SP_LO] == t.mem[SP_LO] && s.mem[SP_HI] == t.mem[SP_HI];
    CallMem(rom, i, s);
    CallMem(rom, i, t);
    PushPcAgree(s.mem, t.mem, s.pc22, Wrap(s.pc + Size(i)), a);
  }

  lemma AluInsnAgree(rom: Rom, i: Insn, s: State, t: State, a: int)
    requires OnlyAlu(i) && SteersAlike(i, s, t) && DepsAlike(i, s, t, a) && 0 <= a < MEM_SIZE && MayWrite(i, s, a)
    ensures MemAfter(rom, i, s)[a] == MemAfter(rom, i, t)[a]
  {
    hide AluMem, AluDeps, AluMayWrite;
    AluAgree(rom, i, s.mem, t.mem, a);
  }

  /** Branches, skips and jumps that are no calls leave memory alone. */
  predicate Quiet(i: Insn) {
    || i.Branch? || i.Jmp? || i.SkipEq? || i.SkipIo? || i.SkipBit? || i.Unimplemented?
    || (i.RelJump? && !i.call) || (i.IndJump? && !i.call)
  }

  lemma QuietMem(rom: Rom, i: Insn, s: State, a: int)
    requires Quiet(i)
    ensures MemAfter(rom, i, s) == s.mem && !MayWrite(i, s, a)
  {
  }

  lemma RetMemAgree(rom: Rom, i: Insn, s: State, t: State, a: int)
    requires i.Ret? && SteersAlike(i, s, t) && DepsAlike(i, s, t, a) && 0 <= a < MEM_SIZE && MayWrite(i, s, a)
    ensures MemAfter(rom, i, s)[a] == MemAfter(rom, i, t)[a]
  {
    hide MemAfter, PopPc, PopPcMem, Pack, Unpack, Assign, SteersAlike;
    RetMem(rom, s, i.reti);
    RetMem(rom, t, i.reti);
    assert a == SREG ==> s.mem[SREG] == t.mem[SREG];
    RetAgree(s, t, i.reti, a);
  }

  lemma RestIsAlu(i: Insn)
    requires !i.LdSt? && !Absolute(i) && !ThroughZ(i) && !i.Pop? && !i.Push? && !IsCallInsn(i) && !i.Ret? && !Quiet(i)
    ensures OnlyAlu(i)
  {
  }

  /** A byte written is the same in both states if what it is made from is. */
  lemma MemAgree(rom: Rom, i: Insn, s: State, t: State, a: int)
    requires SteersAlike(i, s, t) && DepsAlike(i, s, t, a) && 0 <= a < MEM_SIZE && MayWrite(i, s, a)
    ensures MemAfter(rom, i, s)[a] == MemAfter(rom, i, t)[a]
  {
    hide SteersAlike, DepsAlike, MayWrite, MemAfter, OnlyAlu;
    if i.LdSt? {
      LdstAgree(rom, i, s, t, a);
    } else if Absolute(i) {
      AbsoluteAgree(rom, i, s, t, a);
    } else if ThroughZ(i) {
      ThroughZAgree(rom, i, s, t, a);
    } else if i.Pop? || i.Push? {
      PushPopAgree(rom, i, s, t, a);
    } else if IsCallInsn(i) {
      CallAgree(rom, i, s, t, a);
    } else if i.Ret? {
      RetMemAgree(rom, i, s, t, a);
    } else if Quiet(i) {
      QuietMem(rom, i, s, a);
    } else {
      RestIsAlu(i);
      AluInsnAgree(rom, i, s, t, a);
    }
  }

  // ----- control -----

  lemma RetPcAgree(i: Insn, s: State, t: State)
    requires i.Ret? && SteersAlike(i, s, t)
    ensures PcAfter(i, s) == PcAfter(i, t)
  {
    hide PopPc, SteersAlike;
    RetAgree(s, t, i.reti, SP_LO);
  }

  lemma JumpPcAgree(i: Insn, s: State, t: State)
    requires (i.Branch? || i.IndJump?) && SteersAlike(i, s, t)
    ensures PcAfter(i, s) == PcAfter(i, t)
  {
    hide Has, Unpack, BitAt, Wrap;
    if i.Branch? {
      assert s.mem[SREG] == t.mem[SREG];
    } else {
      assert s.mem[REGP_Z] == t.mem[REGP_Z] && s.mem[REGP_Z + 1] == t.mem[REGP_Z + 1];
    }
  }

  lemma FixedPc(i: Insn, s: State, t: State)
    requires !i.Ret? && !i.Branch? && !i.IndJump? && t == s.(mem := t.mem)
    ensures PcAfter(i, s) == PcAfter(i, t)
  {
    hide Wrap, Size;
  }

  lemma PcAgree(i: Insn, s: State, t: State)
    requires SteersAlike(i, s, t)
    ensures PcAfter(i, s) == PcAfter(i, t)
  {
    hide PcAfter, Steers;
    if i.Ret? {
      RetPcAgree(i, s, t);
    } else if i.Branch? || i.IndJump? {
      JumpPcAgree(i, s, t);
    } else {
      FixedPc(i, s, t);
    }
  }

  lemma SkipAgree(i: Insn, s: State, t: State)
    requires SteersAlike(i, s, t)
    ensures SkipAfter(i, s.mem) == SkipAfter(i, t.mem)
  {
    hide Unpack, Has, BitAt;
  }

  /** The two states write the same cells. */
  lemma WritesAgree(i: Insn, s: State, t: State, a: int)
    requires SteersAlike(i, s, t)
    ensures MayWrite(i, s, a) == MayWrite(i, t, a)
  {
    hide Target, AluMayWrite;
    if i.LdSt? {
      TargetAgree(s, t, i.ptr, i.mode);
    }
  }
}
