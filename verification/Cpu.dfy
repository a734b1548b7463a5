/**
 The AVR machine as a state and a step function.

 Registers, stack pointer, status register and RAMP registers all live in data
 memory, so any store may alias any of them; the functions below keep the order
 in which instr.c reads and writes.
 */
module Cpu {
  import opened Bytes
  import opened Isa
  import opened Alu

  const MEM_SIZE := 0x100_0000
  const FLASH_SIZE := 0x80_0000
  const WRAP := 0x1_0000_0000

  const SREG := 0x5F
  const SP_HI := 0x5E
  const SP_LO := 0x5D
  const EIND := 0x5C
  const RAMPZ := 0x5B
  const RAMPY := 0x5A
  const RAMPX := 0x59
  const RAMPD := 0x58
  const REGP_Z := 30
  const REGP_Y := 28
  const REGP_X := 26
  const IO_BASE := 0x20

  type Memory = m: seq<byte> | |m| == MEM_SIZE witness seq(MEM_SIZE, _ => 0)
  type Flash = f: seq<bv16> | |f| == FLASH_SIZE witness seq(FLASH_SIZE, _ => 0)
  type u32 = x: int | 0 <= x < WRAP

  /** 32-bit wrap-around. */
  function Wrap(x: int): (r: u32) {
    x % WRAP
  }

  lemma WrapAdd(x: int, y: int)
    ensures Wrap(Wrap(x) + y) == Wrap(x + y)
  {
    var q := x / WRAP;
    assert x == WRAP * q + Wrap(x);
    assert x + y == WRAP * q + (Wrap(x) + y);
  }

  lemma WrapSmall(x: u32)
    ensures Wrap(x) == x
  {
  }

  /** What does not change during a run: program memory, the decode table, and DES itself
      (key, input, decrypt?, index of the output byte). */
  datatype Rom = Rom(flash: Flash, table: seq<Entry>, des: (seq<byte>, seq<byte>, bool, int) -> byte)

  datatype State = State(mem: Memory, pc: u32, skip: bool, insns: nat, pc22: bool, max64k: bool, max256b: bool)

  datatype Fault = PcOutOfRange | IllegalWord | NotImplemented | IllegalOperands
  datatype Outcome<+T> = Ok(value: T) | Abort(why: Fault)

  // ----- memory accessors -----

  function Flags(m: Memory): (f: Bits) {
    Unpack(m[SREG])
  }

  function SetFlags(m: Memory, f: Bits): (r: Memory) {
    m[SREG := Pack(f)]
  }

  function WordAt(m: Memory, a: nat): (x: word)
    requires a < MEM_SIZE - 1
  {
    m[a] + 256 * (m[a + 1] as int)
  }

  function PutWord(m: Memory, a: nat, x: word): (r: Memory)
    requires a < MEM_SIZE - 1
  {
    m[a := x % 256][a + 1 := x / 256]
  }

  function Sp(m: Memory): (x: word) {
    m[SP_LO] + 256 * (m[SP_HI] as int)
  }

  function SetSp(m: Memory, sp: word): (r: Memory) {
    m[SP_LO := sp % 256][SP_HI := sp / 256]
  }

  /** The byte goes where SP points; SP wraps below 0. */
  function PushByte(m: Memory, b: byte): (r: Memory) {
    SetSp(m[Sp(m) := b], (Sp(m) - 1) % 0x1_0000)
  }

  /** SP wraps above 0xffff but the address read does not: at SP = 0xffff it is 0x10000. */
  function PopMem(m: Memory): (r: Memory) {
    SetSp(m, (Sp(m) + 1) % 0x1_0000)
  }

  function PopByte(m: Memory): (b: byte) {
    PopMem(m)[Sp(m) + 1]
  }

  function PushPc(m: Memory, pc22: bool, ra: u32): (r: Memory) {
    var m2 := PushByte(PushByte(m, ra % 256), ra / 256 % 256);
    if pc22 then PushByte(m2, ra / 0x1_0000 % 256) else m2
  }

  function PopPcMem(m: Memory, pc22: bool): (r: Memory) {
    var m2 := PopMem(PopMem(m));
    if pc22 then PopMem(m2) else m2
  }

  function PopPc(m: Memory, pc22: bool): (ra: u32) {
    var b1 := PopByte(m);
    var b2 := PopByte(PopMem(m));
    if pc22
    then (0x1_0000 * b1 + 256 * b2 + PopByte(PopMem(PopMem(m)))) % 0x40_0000
    else 256 * b1 + b2
  }

  // ----- indirect addressing -----

  function PairReg(p: Pointer): (r: reg) {
    match p
    case PtrX => REGP_X
    case PtrY => REGP_Y
    case PtrZ => REGP_Z
  }

  function RampReg(p: Pointer): (r: nat)
    ensures RAMPX <= r <= RAMPZ
  {
    match p
    case PtrX => RAMPX
    case PtrY => RAMPY
    case PtrZ => RAMPZ
  }

  /** The pointer as 24 bits, with its RAMP byte unless memory is limited to 64 KiB. */
  function PointerAt(m: Memory, p: Pointer, max64k: bool): (a: nat)
    ensures a < MEM_SIZE
  {
    WordAt(m, PairReg(p)) + if max64k then 0 else 0x1_0000 * (m[RampReg(p)] as int)
  }

  /** What the memory model keeps of an address. */
  function Clip(a: nat, max64k: bool, max256b: bool): (r: nat)
    ensures r < MEM_SIZE
  {
    if max256b then a % 0x100 else if max64k then a % 0x1_0000 else a % MEM_SIZE
  }

  /** The data address an indirect load or store touches. */
  function Target(s: State, p: Pointer, mode: Mode): (a: nat)
    ensures a < MEM_SIZE
  {
    var ptr := PointerAt(s.mem, p, s.max64k);
    var addr := match mode
      case Disp(q) => (ptr + q) % MEM_SIZE
      case PreDec => (ptr - 1) % MEM_SIZE
      case PostInc => ptr;
    Clip(addr, s.max64k, s.max256b)
  }

  /** Write a pointer back: its low byte, its word, or its word and RAMP byte. */
  function PutPointer(m: Memory, p: Pointer, a: nat, max64k: bool, max256b: bool): (r: Memory)
    requires a <= MEM_SIZE
  {
    if max256b then m[PairReg(p) := a % 256]
    else
      var m1 := PutWord(m, PairReg(p), a % 0x1_0000);
      if max64k then m1 else m1[RampReg(p) := a / 0x1_0000 % 256]
  }

  function LoadStore(s: State, p: Pointer, mode: Mode, d: reg, store: bool): (r: Memory) {
    var a := Target(s, p, mode);
    var m1 := if store then s.mem[a := s.mem[d]] else s.mem[d := s.mem[a]];
    match mode
    case Disp(_) => m1
    case PostInc => PutPointer(m1, p, a + 1, s.max64k, s.max256b)
    case PreDec => PutPointer(m1, p, a, s.max64k, s.max256b)
  }

  function LdsAddr(s: State, addr: word): (a: nat)
    ensures a < MEM_SIZE
  {
    if s.max64k then addr else addr + 0x1_0000 * (s.mem[RAMPD] as int)
  }

  function StsAddr(s: State, addr: word): (a: nat)
    ensures a < MEM_SIZE
  {
    if !s.max64k then addr + 0x1_0000 * (s.mem[RAMPD] as int)
    else if s.max256b then addr % 256
    else addr
  }

  function LpmAddr(m: Memory, ext: bool): (a: nat)
    ensures a / 2 < FLASH_SIZE
  {
    WordAt(m, REGP_Z) + if ext then 0x1_0000 * (m[RAMPZ] as int) else 0
  }

  function LpmByte(rom: Rom, a: nat): (b: byte)
    requires a / 2 < FLASH_SIZE
  {
    if a % 2 == 1 then Field(rom.flash[a / 2], 15, 8) else Field(rom.flash[a / 2], 7, 0)
  }

  // ----- one instruction -----

  /** The operand forms instr.c refuses to execute. */
  function Faults(i: Insn, pc22: bool): (f: Option<Fault>) {
    match i
    case Unimplemented => Some(NotImplemented)
    case IndJump(ext, _) => if ext && !pc22 then Some(IllegalOperands) else None
    case Lpm(d, _, inc) => if inc && d >= REGP_Z then Some(IllegalOperands) else None
    case LdSt(p, mode, d, _) =>
      if !mode.Disp? && (d == PairReg(p) || d == PairReg(p) + 1) then Some(IllegalOperands) else None
    case _ => None
  }

  function AddMem(m: Memory, d: reg, b: byte, c: nat): (r: Memory)
    requires c <= 1
  {
    SetFlags(m[d := (m[d] + b + c) % 256], AddFlags(Flags(m), m[d], b, c))
  }

  function SubMem(m: Memory, d: reg, b: byte, c: nat, store: bool, zIn: bool): (r: Memory)
    requires c <= 1
  {
    SetFlags(if store then m[d := (m[d] - b - c) % 256] else m, SubFlags(Flags(m), m[d], b, c, zIn))
  }

  function StepMem(m: Memory, d: reg, delta: int): (r: Memory)
    requires -1 <= delta <= 1
  {
    SetFlags(m[d := (m[d] + delta) % 256], StepFlags(Flags(m), m[d], delta))
  }

  function LogicMem(m: Memory, d: reg, r: byte): (r': Memory) {
    SetFlags(m[d := r], LogicFlags(Flags(m), r))
  }

  function ShiftMem(m: Memory, op: ShiftOp, d: reg): (r: Memory) {
    var x := Shifted(op, m[d], Has(Flags(m), C));
    SetFlags(m[d := x], ShiftFlags(Flags(m), x, m[d] % 2 == 1))
  }

  function WideMem(m: Memory, d: pair, delta: int): (r: Memory)
    requires -64 < delta < 64
  {
    var x := WordAt(m, d);
    SetFlags(PutWord(m, d, (x + delta) % 0x1_0000), WideFlags(Flags(m), x, delta))
  }

  function MulMem(m: Memory, p: word, fractional: bool): (r: Memory) {
    var x := if fractional then 2 * p % 0x1_0000 else p;
    SetFlags(PutWord(m, 0, x), Assign(Assign(Flags(m), C, p >= 0x8000), Z, x == 0))
  }

  function DesByte(rom: Rom, m: Memory, k: int): (b: byte) {
    rom.des(m[8..16], m[0..8], Has(Flags(m), H), k)
  }

  function DesMem(rom: Rom, m: Memory, round: byte): (r: Memory) {
    if round < 15 then m
    else m[0 := DesByte(rom, m, 0)][1 := DesByte(rom, m, 1)][2 := DesByte(rom, m, 2)][3 := DesByte(rom, m, 3)]
          [4 := DesByte(rom, m, 4)][5 := DesByte(rom, m, 5)][6 := DesByte(rom, m, 6)][7 := DesByte(rom, m, 7)]
  }

  /** Data memory after an ALU, bit or register instruction. */
  function AluMem(rom: Rom, i: Insn, m: Memory): (r: Memory) {
    match i
    case Movw(p, from) => PutWord(m, p, WordAt(m, from))
    case Mul(sd, sr, fractional, d, r) => MulMem(m, Product(sd, sr, m[d], m[r]), fractional)
    case Add(d, r, carry) => AddMem(m, d, m[r], Num(carry && Has(Flags(m), C)))
    case Sub(d, r, carry, store) => SubMem(m, d, m[r], Num(carry && Has(Flags(m), C)), store, Has(Flags(m), Z))
    case SubImm(d, k, carry, store) => SubMem(m, d, k, Num(carry && Has(Flags(m), C)), store, true)
    case Logic(op, d, r) => LogicMem(m, d, Apply(op, m[d], m[r]))
    case LogicImm(op, d, k) => LogicMem(m, d, Apply(op, m[d], k))
    case Mov(d, r) => m[d := m[r]]
    case Ldi(d, k) => m[d := k]
    case Com(d) => SetFlags(m[d := 255 - m[d]], Assign(LogicFlags(Flags(m), 255 - m[d]), C, true))
    case Neg(d) => SetFlags(m[d := (0 - m[d] as int) % 256], SubFlags(Flags(m), 0, m[d], 0, true))
    case Swap(d) => m[d := Swapped(m[d])]
    case Inc(d) => StepMem(m, d, 1)
    case Dec(d) => StepMem(m, d, -1)
    case Shift(op, d) => ShiftMem(m, op, d)
    case Adiw(p, k) => WideMem(m, p, k)
    case Sbiw(p, k) => WideMem(m, p, 0 - k as int)
    case In(d, port) => m[d := m[IO_BASE + port]]
    case IoBit(port, b, value) => m[IO_BASE + port := Pack(Assign(Unpack(m[IO_BASE + port]), BitAt(b), value))]
    case SetFlag(b, value) => SetFlags(m, Assign(Flags(m), BitAt(b), value))
    case Bld(d, b) => m[d := Pack(Assign(Unpack(m[d]), BitAt(b), Has(Flags(m), T)))]
    case Bst(d, b) => SetFlags(m, Assign(Flags(m), T, Has(Unpack(m[d]), BitAt(b))))
    case Des(round) => DesMem(rom, m, round)
    case _ => m
  }

  /** Data memory after any instruction that does not fault. */
  function MemAfter(rom: Rom, i: Insn, s: State): (r: Memory) {
    var m := s.mem;
    match i
    case LdSt(p, mode, d, store) => LoadStore(s, p, mode, d, store)
    case Lds(d, addr) => m[d := m[LdsAddr(s, addr)]]
    case Sts(d, addr) => m[StsAddr(s, addr) := m[d]]
    case Lpm(d, ext, inc) =>
      var a := LpmAddr(m, ext);
      var m1 := m[d := LpmByte(rom, a)];
      if inc then PutWord(m1, REGP_Z, (a + 1) % 0x1_0000) else m1
    case Xch(op, d) =>
      var a := WordAt(m, REGP_Z);
      m[a := ApplyXch(op, m[a], m[d])][d := m[a]]
    case Out(d, port) => m[IO_BASE + port := m[d]]
    case Pop(d) => PopMem(m)[d := PopByte(m)]
    case Push(d) => PushByte(m, m[d])
    case Call(_, _) => PushPc(m, s.pc22, Wrap(s.pc + 2))
    case RelJump(_, call) => if call then PushPc(m, s.pc22, Wrap(s.pc + 1)) else m
    case IndJump(_, call) => if call then PushPc(m, s.pc22, Wrap(s.pc + 1)) else m
    case Ret(reti) =>
      var m1 := PopPcMem(m, s.pc22);
      if reti then SetFlags(m1, Assign(Flags(m1), I, true)) else m1
    case _ => AluMem(rom, i, m)
  }

  function LongTarget(s: State, high: byte, addr: word): (a: u32) {
    if s.pc22 then addr + 0x1_0000 * high else addr
  }

  function PcAfter(i: Insn, s: State): (pc: u32) {
    match i
    case Branch(b, value, offset) =>
      Wrap(s.pc + 1 + if Has(Flags(s.mem), BitAt(b)) == value then offset else 0)
    case Jmp(high, addr) => LongTarget(s, high, addr)
    case Call(high, addr) => LongTarget(s, high, addr)
    case RelJump(offset, _) => Wrap(s.pc + 1 + offset)
    case IndJump(ext, _) => WordAt(s.mem, REGP_Z) + if ext then 0x1_0000 * (s.mem[EIND] as int) else 0
    case Ret(_) => PopPc(s.mem, s.pc22)
    case _ => Wrap(s.pc + Size(i))
  }

  predicate SkipAfter(i: Insn, m: Memory) {
    match i
    case SkipEq(d, r) => m[d] == m[r]
    case SkipIo(port, b, value) => Has(Unpack(m[IO_BASE + port]), BitAt(b)) == value
    case SkipBit(d, b, value) => Has(Unpack(m[d]), BitAt(b)) == value
    case _ => false
  }

  /** The machine after executing i, before any skip is resolved. */
  function Exec(rom: Rom, i: Insn, s: State): (t: State) {
    s.(mem := MemAfter(rom, i, s), pc := PcAfter(i, s), skip := SkipAfter(i, s.mem), insns := s.insns + 1)
  }

  /** Instructions that fall through and touch only registers, I/O bits and flags. */
  predicate OnlyAlu(i: Insn) {
    match i
    case LdSt(_, _, _, _) | Lds(_, _) | Sts(_, _) | Lpm(_, _, _) | Xch(_, _) | Out(_, _) | Pop(_) | Push(_) => false
    case Call(_, _) | RelJump(_, _) | IndJump(_, _) | Ret(_) | Branch(_, _, _) | Jmp(_, _) => false
    case SkipEq(_, _) | SkipIo(_, _, _) | SkipBit(_, _, _) | Unimplemented => false
    case _ => true
  }

  lemma OnlyAluShape(rom: Rom, i: Insn, s: State)
    requires OnlyAlu(i)
    ensures MemAfter(rom, i, s) == AluMem(rom, i, s.mem) && Faults(i, s.pc22).None?
    ensures PcAfter(i, s) == Wrap(s.pc + Size(i)) && !SkipAfter(i, s.mem)
  {
    hide AluMem;
  }

  predicate IsSkipInsn(i: Insn) {
    i.SkipEq? || i.SkipIo? || i.SkipBit?
  }

  lemma SkipShape(rom: Rom, i: Insn, s: State)
    requires IsSkipInsn(i)
    ensures MemAfter(rom, i, s) == s.mem && PcAfter(i, s) == Wrap(s.pc + 1) && Size(i) == 1 && Faults(i, s.pc22).None?
  {
  }

  lemma ExecFields(rom: Rom, i: Insn, s: State)
    ensures var t := Exec(rom, i, s); t.skip == SkipAfter(i, s.mem) && t.pc22 == s.pc22
  {
  }

  // ----- fetch, step, run -----

  function FullWord(w: bv16): (x: word) {
    Field(w, 15, 0)
  }

  function Fetch(rom: Rom, pc: u32): (i: Outcome<Insn>) {
    if pc >= FLASH_SIZE then Abort(PcOutOfRange)
    else
      match Lookup(rom.table, rom.flash[pc])
      case None => Abort(IllegalWord)
      case Some(e) =>
        if !e.imm16 then Ok(Decode(e.code, rom.flash[pc], 0))
        else if pc + 1 >= FLASH_SIZE then Abort(PcOutOfRange)
        else Ok(Decode(e.code, rom.flash[pc], FullWord(rom.flash[pc + 1])))
  }

  /** A pending skip: step over the instruction at pc. */
  function PassOver(rom: Rom, s: State): (t: Outcome<State>) {
    match Fetch(rom, s.pc)
    case Abort(why) => Abort(why)
    case Ok(i) => Ok(s.(pc := Wrap(s.pc + Size(i)), skip := false))
  }

  /** emulate1: execute one instruction, or resolve a skip left pending. */
  function Step(rom: Rom, s: State): (t: Outcome<State>) {
    if s.skip then PassOver(rom, s)
    else
      match Fetch(rom, s.pc)
      case Abort(why) => Abort(why)
      case Ok(i) =>
        if Faults(i, s.pc22).Some? then Abort(Faults(i, s.pc22).value)
        else if SkipAfter(i, s.mem) then PassOver(rom, Exec(rom, i, s))
        else Ok(Exec(rom, i, s))
  }

  function Run(rom: Rom, s: State, n: nat): (t: Outcome<State>) {
    if n == 0 then Ok(s)
    else
      match Run(rom, s, n - 1)
      case Abort(why) => Abort(why)
      case Ok(t) => Step(rom, t)
  }

  lemma StepKeepsModel(rom: Rom, s: State)
    requires Step(rom, s).Ok?
    ensures var t := Step(rom, s).value; t.max64k == s.max64k && t.max256b == s.max256b && t.pc22 == s.pc22
  {
    hide Fetch, Faults, MemAfter, PcAfter, SkipAfter, Wrap, Size;
  }

  lemma {:induction false} RunKeepsModel(rom: Rom, s: State, n: nat)
    requires Run(rom, s, n).Ok?
    ensures var t := Run(rom, s, n).value; t.max64k == s.max64k && t.max256b == s.max256b && t.pc22 == s.pc22
  {
    hide Step;
    if n > 0 {
      RunKeepsModel(rom, s, n - 1);
      StepKeepsModel(rom, Run(rom, s, n - 1).value);
    }
  }

  /** The words a step adds to the binary trace: those of the instruction executed. */
  function Traced(rom: Rom, s: State): (ws: seq<bv16>) {
    if s.skip || Fetch(rom, s.pc).Abort? || Faults(Fetch(rom, s.pc).value, s.pc22).Some? then []
    else if Size(Fetch(rom, s.pc).value) == 2 && s.pc + 1 < FLASH_SIZE then [rom.flash[s.pc], rom.flash[s.pc + 1]]
    else [rom.flash[s.pc]]
  }

  /** init() followed by pc = 0: everything but data memory is reset. */
  function Reset(m: Memory): (s: State) {
    State(m, 0, false, 0, false, false, false)
  }
}
