/**
 The emulator's machine as the program keeps it: global variables, a memory
 buffer written in place, and one routine per instruction.  Every routine is
 proved against the step function of `Cpu`.
 */
module Machine {
  import opened Bytes
  import opened Isa
  import opened Alu
  import opened FlagMasks
  import opened Cpu
  import opened Kinds

  /** struct instr_decode_common, without its flag masks, which the handlers return. */
  datatype Idc = Idc(instr: bv16, d: reg, r: reg, k: byte, imm: word)

  function DOf(form: DForm, w: bv16): (d: reg) {
    match form
    case NoD => 0
    case D84 => D84Of(w)
    case D74 => D74Of(w)
    case D64 => D64Of(w)
  }

  function ROf(form: RForm, w: bv16): (r: reg) {
    match form
    case NoR => 0
    case R9 => R9Of(w)
    case R30 => R30Of(w)
    case R20 => R20Of(w)
  }

  /** The operands are where handler h looks for them. */
  predicate Laid(h: Handler, x: Idc) {
    var (dForm, rForm, k, imm16) := Layout(h);
    && x.d == DOf(dForm, x.instr)
    && x.r == ROf(rForm, x.instr)
    && (k ==> x.k == K8Of(x.instr))
  }

  // ----- what kind of instruction each group of handlers decodes to -----

  lemma AluShape(rom: Rom, h: Handler, w: bv16, imm: word, s: State)
    requires IsArith(h) || IsLogic(h) || IsMul(h) || IsPlain(h)
    ensures var i := Decode(h, w, imm);
      && MemAfter(rom, i, s) == AluMem(rom, i, s.mem) && Faults(i, s.pc22).None?
      && PcAfter(i, s) == Wrap(s.pc + Size(i)) && !SkipAfter(i, s.mem)
  {
    hide Decode;
    AluKind(h, w, imm);
    OnlyAluShape(rom, Decode(h, w, imm), s);
  }

  lemma LdstShape(h: Handler, w: bv16, imm: word, s: State)
    requires IsLdst(h)
    ensures PcAfter(Decode(h, w, imm), s) == Wrap(s.pc + Size(Decode(h, w, imm)))
    ensures !SkipAfter(Decode(h, w, imm), s.mem)
  {
  }

  lemma TransferShape(h: Handler, w: bv16, imm: word, s: State)
    requires IsTransfer(h)
    ensures PcAfter(Decode(h, w, imm), s) == Wrap(s.pc + Size(Decode(h, w, imm)))
    ensures !SkipAfter(Decode(h, w, imm), s.mem)
  {
  }

  lemma SkipHandlerShape(rom: Rom, h: Handler, w: bv16, imm: word, s: State)
    requires IsSkip(h)
    ensures var i := Decode(h, w, imm);
      MemAfter(rom, i, s) == s.mem && Faults(i, s.pc22).None? && PcAfter(i, s) == Wrap(s.pc + Size(i))
  {
    hide Decode, MemAfter, PcAfter, Faults;
    SkipKind(h, w, imm);
    SkipShape(rom, Decode(h, w, imm), s);
  }

  lemma SkipKind(h: Handler, w: bv16, imm: word)
    requires IsSkip(h)
    ensures IsSkipInsn(Decode(h, w, imm))
  {
  }

  lemma JumpShape(h: Handler, w: bv16, imm: word, s: State)
    requires IsJump(h)
    ensures var i := Decode(h, w, imm); Faults(i, s.pc22).None? && !SkipAfter(i, s.mem)
  {
  }

  lemma CallShape(h: Handler, w: bv16, imm: word, s: State)
    requires IsCall(h)
    ensures !SkipAfter(Decode(h, w, imm), s.mem)
  {
  }

  lemma RestShape(h: Handler, w: bv16, imm: word, s: State)
    requires !IsArith(h) && !IsLogic(h) && !IsMul(h) && !IsPlain(h) && !IsLdst(h)
    requires !IsTransfer(h) && !IsSkip(h) && !IsJump(h) && !IsCall(h)
    ensures Faults(Decode(h, w, imm), s.pc22) == Some(NotImplemented)
  {
  }

  // ----- what the handlers of control decode to, in terms of the operands handed to them -----

  lemma SkipLaid(h: Handler, x: Idc)
    requires IsSkip(h) && Laid(h, x)
    ensures h.HCpse? ==> x.d == D84Of(x.instr) && x.r == R9Of(x.instr)
    ensures !h.HCpse? ==> x.r == R20Of(x.instr)
    ensures h.HSbrcs? ==> x.d == D84Of(x.instr)
  {
    hide D84Of, D74Of, D64Of, R9Of, R30Of, R20Of, K8Of;
  }

  lemma CpseDecodes(w: bv16, imm: word)
    ensures Decode(HCpse, w, imm) == SkipEq(D84Of(w), R9Of(w))
  {
    hide Field, D84Of, R9Of;
  }

  lemma SbicsDecodes(w: bv16, imm: word)
    ensures Decode(HSbics, w, imm) == SkipIo(LowPortOf(w), BitOf(w), Field(w, 9, 9) == 1)
  {
    hide Field, BitOf, LowPortOf;
  }

  lemma SbrcsDecodes(w: bv16, imm: word)
    ensures Decode(HSbrcs, w, imm) == SkipBit(D84Of(w), BitOf(w), Field(w, 9, 9) == 1)
  {
    hide Field, BitOf, D84Of;
  }

  lemma SkipDecodes(h: Handler, x: Idc)
    requires IsSkip(h) && Laid(h, x)
    ensures !h.HCpse? ==> 16 <= x.r < 24
    ensures Decode(h, x.instr, x.imm)
         == if h.HCpse? then SkipEq(x.d, x.r)
            else if h.HSbics? then SkipIo(LowPortOf(x.instr), x.r - 16, Field(x.instr, 9, 9) == 1)
            else SkipBit(x.d, x.r - 16, Field(x.instr, 9, 9) == 1)
  {
    hide Decode, Laid, Field, BitOf, D84Of, R9Of, LowPortOf;
    SkipLaid(h, x);
    CpseDecodes(x.instr, x.imm);
    SbicsDecodes(x.instr, x.imm);
    SbrcsDecodes(x.instr, x.imm);
  }

  lemma BrbLaid(h: Handler, x: Idc)
    requires h.HBrb? && Laid(h, x)
    ensures x.r == R20Of(x.instr)
  {
    hide D84Of, D74Of, D64Of, R9Of, R30Of, R20Of, K8Of;
  }

  lemma JumpDecode(h: Handler, w: bv16, imm: word)
    requires IsJump(h)
    ensures var i := Decode(h, w, imm);
      && Size(i) == (if h.HJmp? then 2 else 1)
      && i == if h.HBrb? then Branch(BitOf(w), Field(w, 10, 10) == 0, BranchOffset(w))
              else if h.HJmp? then Jmp(HighOf(w), imm)
              else Ret(h.HReti?)
  {
    hide Field, BitOf, BranchOffset, HighOf;
  }

  lemma JumpDecodes(h: Handler, x: Idc)
    requires IsJump(h) && Laid(h, x)
    ensures h.HBrb? ==> 16 <= x.r < 24
    ensures var i := Decode(h, x.instr, x.imm);
      && Size(i) == (if h.HJmp? then 2 else 1)
      && i == if h.HBrb? then Branch(x.r - 16, Field(x.instr, 10, 10) == 0, BranchOffset(x.instr))
              else if h.HJmp? then Jmp(HighOf(x.instr), x.imm)
              else Ret(h.HReti?)
  {
    hide Decode, Laid, Size, Field, BitOf, BranchOffset, HighOf;
    JumpDecode(h, x.instr, x.imm);
    if h.HBrb? {
      BrbLaid(h, x);
    }
  }

  lemma CallDecodes(h: Handler, x: Idc)
    requires IsCall(h)
    ensures var i := Decode(h, x.instr, x.imm);
      && Size(i) == (if h.HCall? then 2 else 1)
      && i == if h.HCall? then Call(HighOf(x.instr), x.imm)
              else if h.HRcalljmp? then RelJump(JumpOffset(x.instr), Field(x.instr, 12, 12) == 1)
              else IndJump(Field(x.instr, 4, 4) == 1, Field(x.instr, 8, 8) == 1)
  {
    hide Field, JumpOffset, HighOf;
  }

  lemma CallFaults(h: Handler, x: Idc, pc22: bool)
    requires IsCall(h)
    ensures Faults(Decode(h, x.instr, x.imm), pc22)
         == if h.HEicalljump? && Field(x.instr, 4, 4) == 1 && !pc22 then Some(IllegalOperands) else None
  {
    hide Decode, Field, JumpOffset, HighOf, Size;
    CallDecodes(h, x);
  }

  lemma BranchEffect(rom: Rom, b: bitno, value: bool, offset: int, s: State)
    ensures var i := Branch(b, value, offset);
      && MemAfter(rom, i, s) == s.mem
      && PcAfter(i, s) == Wrap(s.pc + 1 + if Has(Flags(s.mem), BitAt(b)) == value then offset else 0)
  {
    hide Wrap, Has, Flags, BitAt;
  }

  lemma IndJumpEffect(rom: Rom, ext: bool, call: bool, s: State)
    ensures var i := IndJump(ext, call);
      && MemAfter(rom, i, s) == (if call then PushPc(s.mem, s.pc22, Wrap(s.pc + 1)) else s.mem)
      && PcAfter(i, s) == WordAt(s.mem, REGP_Z) + if ext then 0x1_0000 * (s.mem[EIND] as int) else 0
  {
    hide Wrap, PushPc, WordAt;
  }

  lemma RelJumpEffect(rom: Rom, offset: int, call: bool, s: State)
    ensures var i := RelJump(offset, call);
      && MemAfter(rom, i, s) == (if call then PushPc(s.mem, s.pc22, Wrap(s.pc + 1)) else s.mem)
      && PcAfter(i, s) == Wrap(s.pc + 1 + offset)
  {
    hide Wrap, PushPc, AluMem;
  }

  lemma CallEffect(rom: Rom, high: byte, addr: word, s: State)
    ensures var i := Call(high, addr);
      && MemAfter(rom, i, s) == PushPc(s.mem, s.pc22, Wrap(s.pc + 2))
      && PcAfter(i, s) == addr + if s.pc22 then 0x1_0000 * (high as int) else 0
  {
    hide Wrap, PushPc, AluMem;
  }

  lemma LdstEffect(rom: Rom, p: Pointer, mode: Mode, d: reg, store: bool, s: State)
    ensures MemAfter(rom, LdSt(p, mode, d, store), s) == LoadStore(s, p, mode, d, store)
  {
    hide LoadStore;
  }

  /** What a step does and traces, by cases of its fetch. */
  lemma StepCases(rom: Rom, s: State)
    ensures s.skip ==> Step(rom, s) == PassOver(rom, s) && Traced(rom, s) == []
    ensures !s.skip && Fetch(rom, s.pc).Abort? ==> Step(rom, s) == Abort(Fetch(rom, s.pc).why) && Traced(rom, s) == []
    ensures !s.skip && Fetch(rom, s.pc).Ok? ==>
      var i := Fetch(rom, s.pc).value;
      if Faults(i, s.pc22).Some? then Step(rom, s) == Abort(Faults(i, s.pc22).value) && Traced(rom, s) == []
      else
        && Step(rom, s) == (if SkipAfter(i, s.mem) then PassOver(rom, Exec(rom, i, s)) else Ok(Exec(rom, i, s)))
        && (s.pc + Size(i) <= FLASH_SIZE ==> Traced(rom, s) == rom.flash[s.pc..s.pc + Size(i)])
  {
    hide Fetch, Faults, SkipAfter, Exec, PassOver;
  }

  /** Merging empty masks changes nothing. */
  lemma NoFlags(m: Memory)
    ensures NO_MASKS.Disjoint() && SetFlags(m, NO_MASKS.Merge(Flags(m))) == m
  {
    PackUnpack(m[SREG]);
  }

  /** Clearing and then setting bits of SREG in place is one merge. */
  lemma MergeInPlace(m: Memory, fx: Masks)
    ensures var m1 := m[SREG := Pack(Unpack(m[SREG]) & !fx.off)];
      m1[SREG := Pack(Unpack(m1[SREG]) | fx.on)] == SetFlags(m, fx.Merge(Flags(m)))
  {
    hide Pack, Unpack;
    UnpackPack(Unpack(m[SREG]) & !fx.off);
  }

  lemma SwapShift(a: byte)
    ensures a / 16 + (a as int * 16) % 256 == Swapped(a)
  {
    var q, r := a / 16, a % 16;
    assert a as int * 16 == 256 * q + 16 * r;
  }

  class Machine {
    const rom: Rom
    const memory: array<byte>
    var pc: u32
    var pcStart: u32
    var instrSize: nat
    var skip: bool
    var insns: nat
    var pc22: bool
    var max64k: bool
    var max256b: bool

    ghost predicate Valid() {
      memory.Length == MEM_SIZE && forall e | e in rom.table :: WellLaid(e)
    }

    ghost function Mem(): Memory
      requires Valid()
      reads memory
    {
      memory[..]
    }

    ghost function Abs(): State
      requires Valid()
      reads this, memory
    {
      State(Mem(), pc, skip, insns, pc22, max64k, max256b)
    }

    /** A machine with the given program, after init; memory holds whatever it is given. */
    constructor (rom: Rom, contents: array<byte>)
      requires contents.Length == MEM_SIZE && forall e | e in rom.table :: WellLaid(e)
      ensures Valid() && this.rom == rom && memory == contents && Abs() == Reset(contents[..])
    {
      this.rom := rom;
      memory := contents;
      pc, pcStart, instrSize, skip, insns := 0, 0, 1, false, 0;
      pc22, max64k, max256b := false, false, false;
    }

    /** init(), which leaves memory alone; its caller then sets pc to 0, as it already is. */
    method Init()
      requires Valid()
      modifies `pc, `pc22, `max256b, `max64k, `insns, `skip
      ensures Abs() == Reset(old(Mem())) && Mem() == old(Mem())
      ensures pc == 0 && insns == 0 && !skip && !pc22 && !max64k && !max256b
    {
      pc := 0;
      pc22 := false;
      max256b := false;
      max64k := false;
      insns := 0;
      skip := false;
    }

    /** Memory will be m once the handler's masks are merged. */
    ghost predicate Leaves(fx: Masks, m: Memory)
      requires Valid()
      reads memory
    {
      fx.Disjoint() && SetFlags(Mem(), fx.Merge(Flags(Mem()))) == m
    }

    /** Memory and, once advanced, pc are as instruction i leaves them from state s. */
    ghost predicate Landed(i: Insn, s: State)
      requires Valid()
      reads this, memory
    {
      Mem() == MemAfter(rom, i, s) && Wrap(pc + instrSize) == PcAfter(i, s)
    }

    // ----- memory access -----

    method Store(a: int, b: byte)
      requires Valid() && 0 <= a < MEM_SIZE
      modifies memory
      ensures Mem() == old(Mem())[a := b]
    {
      memory[a] := b;
    }

    /** memword; the alignment assertion of emu.h is a precondition, met at every call. */
    method LoadWord(a: nat) returns (w: word)
      requires Valid() && a % 2 == 0 && a < MEM_SIZE - 1
      ensures w == WordAt(Mem(), a)
    {
      w := memory[a] + 256 * (memory[a + 1] as int);
    }

    method StoreWord(a: nat, w: word)
      requires Valid() && a % 2 == 0 && a < MEM_SIZE - 1
      modifies memory
      ensures Mem() == PutWord(old(Mem()), a, w)
    {
      Store(a, w % 256);
      Store(a + 1, w / 256);
    }

    method LoadSp() returns (sp: word)
      requires Valid()
      ensures sp == Sp(Mem())
    {
      sp := memory[SP_LO] + 256 * (memory[SP_HI] as int);
    }

    method StoreSp(sp: word)
      requires Valid()
      modifies memory
      ensures Mem() == SetSp(old(Mem()), sp)
    {
      Store(SP_LO, sp % 256);
      Store(SP_HI, sp / 256);
    }

    method Pop8() returns (b: byte)
      requires Valid()
      modifies memory
      ensures Mem() == PopMem(old(Mem())) && b == PopByte(old(Mem()))
    {
      var sp := LoadSp();
      StoreSp((sp as int + 1) % 0x1_0000);
      b := memory[sp + 1];
    }

    method Push8(b: byte)
      requires Valid()
      modifies memory
      ensures Mem() == PushByte(old(Mem()), b)
    {
      var sp := LoadSp();
      Store(sp, b);
      StoreSp((sp as int - 1) % 0x1_0000);
    }

    /** The push sequence shared by the call handlers. */
    method PushReturn(ra: u32)
      requires Valid()
      modifies memory
      ensures Mem() == PushPc(old(Mem()), pc22, ra)
    {
      hide PushByte;
      Push8(ra % 256);
      Push8(ra / 256 % 256);
      if pc22 {
        Push8(ra / 0x1_0000 % 256);
      }
    }

    // ----- arithmetic and logic -----

    method InstrAdc(x: Idc) returns (fx: Masks)
      requires Valid()
      modifies memory
      ensures var m := old(Mem());
        Leaves(fx, AddMem(m, x.d, m[x.r], Num(Field(x.instr, 12, 12) == 1 && Has(Flags(m), C))))
    {
      hide AddFlags, Pack, Unpack, Masks.Merge, Masks.Disjoint, Field, Has;
      var carryMode := Field(x.instr, 12, 12) == 1;
      var rr, rd := memory[x.r], memory[x.d];
      var res: byte := (rd as int + rr) % 256;
      ghost var c := 0;
      if carryMode && Has(Unpack(memory[SREG]), C) {
        res := (res as int + 1) % 256;
        c := 1;
      }
      Store(x.d, res);
      fx := AdcFlags8(res, rd, rr, c);
    }

    method InstrCpc(x: Idc) returns (fx: Masks)
      requires Valid()
      modifies memory
      ensures var m := old(Mem());
        Leaves(fx, SubMem(m, x.d, m[x.r], Num(Field(x.instr, 12, 12) == 0 && Has(Flags(m), C)),
                          Field(x.instr, 11, 10) != 1, Has(Flags(m), Z)))
    {
      hide SubFlags, Pack, Unpack, Masks.Merge, Masks.Disjoint, Masks.Without, Field, Has;
      var carryMode := Field(x.instr, 12, 12) == 0;
      var noStore := Field(x.instr, 11, 10) == 1;
      var rr, rd := memory[x.r], memory[x.d];
      var res: byte := (rd as int - rr) % 256;
      ghost var c := 0;
      if carryMode && Has(Unpack(memory[SREG]), C) {
        PrevMod(res, rd as int - rr - 1, 256);
        res := (res as int - 1) % 256;
        c := 1;
      }
      if !noStore {
        Store(x.d, res);
      }
      fx := SubFlags8(res, rd, rr, c);
      StickyZ(fx, Flags(Mem()), rd, rr, c);
      fx := fx.Without(Z);
    }

    method InstrCpi(x: Idc) returns (fx: Masks)
      requires Valid()
      modifies memory
      ensures var m := old(Mem());
        Leaves(fx, SubMem(m, x.d, x.k, Num(Field(x.instr, 12, 12) == 0 && Has(Flags(m), C)),
                          Field(x.instr, 14, 13) == 2, true))
    {
      hide SubFlags, Pack, Unpack, Masks.Merge, Masks.Disjoint, Field, Has;
      var store := Field(x.instr, 14, 13) == 2;
      var carry := Field(x.instr, 12, 12) == 0;
      var rd := memory[x.d];
      var res: byte := (rd as int - x.k) % 256;
      ghost var c := 0;
      if carry && Has(Unpack(memory[SREG]), C) {
        res := (res as int - 1) % 256;
        c := 1;
      }
      if store {
        Store(x.d, res);
      }
      fx := SubFlags8(res, rd, x.k, c);
    }

    method InstrAdiw(x: Idc) returns (fx: Masks)
      requires Valid()
      modifies memory
      ensures Leaves(fx, WideMem(old(Mem()), PairOf(x.instr), K6Of(x.instr)))
    {
      hide WideFlags, Pack, Unpack, Masks.Merge, Masks.Disjoint, Field;
      var dd: pair := 24 + 2 * Field(x.instr, 5, 4);
      var imm: small := 16 * Field(x.instr, 7, 6) + Field(x.instr, 3, 0);
      var rd := LoadWord(dd);
      var res: word := (rd as int + imm) % 0x1_0000;
      StoreWord(dd, res);
      fx := AdiwFlags16(res, rd, imm);
    }

    method InstrSbiw(x: Idc) returns (fx: Masks)
      requires Valid()
      modifies memory
      ensures Leaves(fx, WideMem(old(Mem()), PairOf(x.instr), 0 - K6Of(x.instr) as int))
    {
      hide WideFlags, Pack, Unpack, Masks.Merge, Masks.Disjoint, Field;
      var d: pair := 2 * Field(x.instr, 5, 4) + 24;
      var k: small := 16 * Field(x.instr, 7, 6) + Field(x.instr, 3, 0);
      var rd := LoadWord(d);
      var res: word := (rd as int - k) % 0x1_0000;
      StoreWord(d, res);
      fx := SbiwFlags16(res, rd, k);
    }

    /** AND, OR, EOR and their immediate forms differ only in where b comes from. */
    method InstrLogic(op: LogicOp, d: reg, b: byte) returns (fx: Masks)
      requires Valid()
      modifies memory
      ensures var m := old(Mem()); Leaves(fx, LogicMem(m, d, Apply(op, m[d], b)))
    {
      hide LogicFlags, Pack, Unpack, Masks.Merge, Masks.Disjoint, Field;
      var res := Apply(op, memory[d], b);
      Store(d, res);
      fx := LogicFlags8(res);
    }

    method InstrCom(x: Idc) returns (fx: Masks)
      requires Valid()
      modifies memory
      ensures var m := old(Mem());
        Leaves(fx, SetFlags(m[x.d := 255 - m[x.d]], Assign(LogicFlags(Flags(m), 255 - m[x.d]), C, true)))
    {
      hide Pack, Unpack, LogicFlags, Assign, Masks.Merge, Masks.Disjoint;
      var res: byte := 255 - memory[x.d];
      Store(x.d, res);
      fx := ComFlags8(res);
    }

    method InstrNeg(x: Idc) returns (fx: Masks)
      requires Valid()
      modifies memory
      ensures var m := old(Mem());
        Leaves(fx, SetFlags(m[x.d := (0 - m[x.d] as int) % 256], SubFlags(Flags(m), 0, m[x.d], 0, true)))
    {
      hide Pack, Unpack, SubFlags, Masks.Merge, Masks.Disjoint;
      var rd := memory[x.d];
      var res: byte := (0 - rd as int) % 256;
      Store(x.d, res);
      fx := NegFlags8(res, rd);
    }

    method InstrInc(x: Idc) returns (fx: Masks)
      requires Valid()
      modifies memory
      ensures Leaves(fx, StepMem(old(Mem()), x.d, 1))
    {
      hide Pack, Unpack, StepFlags, Masks.Merge, Masks.Disjoint;
      ghost var rd := memory[x.d];
      var res: byte := (memory[x.d] as int + 1) % 256;
      Store(x.d, res);
      fx := IncFlags8(res, rd);
    }

    method InstrDec(x: Idc) returns (fx: Masks)
      requires Valid()
      modifies memory
      ensures Leaves(fx, StepMem(old(Mem()), x.d, -1))
    {
      hide Pack, Unpack, StepFlags, Masks.Merge, Masks.Disjoint;
      ghost var rd := memory[x.d];
      var res: byte := (memory[x.d] as int - 1) % 256;
      Store(x.d, res);
      fx := DecFlags8(res, rd);
    }

    method InstrAsr(x: Idc) returns (fx: Masks)
      requires Valid()
      modifies memory
      ensures Leaves(fx, ShiftMem(old(Mem()), Asr, x.d))
    {
      hide Pack, Unpack, Has, ShiftFlags, Masks.Merge, Masks.Disjoint;
      var rd := memory[x.d];
      var res: byte := rd / 2 + if rd >= 128 then 128 else 0;
      Store(x.d, res);
      fx := AsrFlags8(res, rd);
    }

    method InstrLsr(x: Idc) returns (fx: Masks)
      requires Valid()
      modifies memory
      ensures Leaves(fx, ShiftMem(old(Mem()), Lsr, x.d))
    {
      hide Pack, Unpack, Has, ShiftFlags, Masks.Merge, Masks.Disjoint;
      var rd := memory[x.d];
      var res: byte := rd / 2;
      Store(x.d, res);
      fx := AsrFlags8(res, rd);
    }

    method InstrRor(x: Idc) returns (fx: Masks)
      requires Valid()
      modifies memory
      ensures Leaves(fx, ShiftMem(old(Mem()), Ror, x.d))
    {
      hide Pack, Unpack, Has, ShiftFlags, Masks.Merge, Masks.Disjoint;
      var rd := memory[x.d];
      var res: byte := rd / 2;
      if Has(Unpack(memory[SREG]), C) {
        res := res + 0x80;
      }
      Store(x.d, res);
      fx := AsrFlags8(res, rd);
    }

    /** MUL, MULS and MULSU. */
    method InstrMul(x: Idc, signedD: bool, signedR: bool) returns (fx: Masks)
      requires Valid()
      modifies memory
      ensures var m := old(Mem()); Leaves(fx, MulMem(m, Product(signedD, signedR, m[x.d], m[x.r]), false))
    {
      hide Pack, Unpack, Assign, Product, Masks.Merge, Masks.Disjoint;
      var res := Product(signedD, signedR, memory[x.d], memory[x.r]);
      StoreWord(0, res);
      fx := MulFlags16(res);
    }

    /** FMUL, FMULS and FMULSU. */
    method InstrFmul(x: Idc, signedD: bool, signedR: bool) returns (fx: Masks)
      requires Valid()
      modifies memory
      ensures var m := old(Mem()); Leaves(fx, MulMem(m, Product(signedD, signedR, m[x.d], m[x.r]), true))
    {
      hide Pack, Unpack, Assign, Product, Masks.Merge, Masks.Disjoint;
      var res := Product(signedD, signedR, memory[x.d], memory[x.r]);
      fx := FmulFlags16(res);
      StoreWord(0, 2 * (res as int) % 0x1_0000);
    }

    // ----- single bits -----

    method InstrBclrset(x: Idc) returns (fx: Masks)
      requires Valid() && 16 <= x.d < 24
      modifies memory
      ensures var m := old(Mem());
        Leaves(fx, SetFlags(m, Assign(Flags(m), BitAt(x.d - 16), Field(x.instr, 7, 7) == 0)))
    {
      hide Pack, Unpack, Field, BitAt, Assign, Masks.Merge, Masks.Disjoint;
      var sss := x.d - 16;
      fx := OneFlag(BitAt(sss), Field(x.instr, 7, 7) == 0);
    }

    method InstrBst(x: Idc) returns (fx: Masks)
      requires Valid() && 16 <= x.r < 24
      modifies memory
      ensures var m := old(Mem());
        Leaves(fx, SetFlags(m, Assign(Flags(m), T, Has(Unpack(m[x.d]), BitAt(x.r - 16)))))
    {
      hide Pack, Unpack, Has, BitAt, Assign, Masks.Merge, Masks.Disjoint;
      fx := OneFlag(T, Has(Unpack(memory[x.d]), BitAt(x.r - 16)));
    }

    method InstrBld(x: Idc)
      requires Valid() && 16 <= x.r < 24
      modifies memory
      ensures var m := old(Mem());
        Mem() == m[x.d := Pack(Assign(Unpack(m[x.d]), BitAt(x.r - 16), Has(Flags(m), T)))]
    {
      hide Pack, Unpack, Has, BitAt, Assign;
      var sss := x.r - 16;
      if Has(Unpack(memory[SREG]), T) {
        Store(x.d, Pack(Assign(Unpack(memory[x.d]), BitAt(sss), true)));
      } else {
        Store(x.d, Pack(Assign(Unpack(memory[x.d]), BitAt(sss), false)));
      }
    }

    method InstrCbisbi(x: Idc)
      requires Valid() && 16 <= x.r < 24
      modifies memory
      ensures var m := old(Mem());
        var a := IO_BASE + LowPortOf(x.instr);
        Mem() == m[a := Pack(Assign(Unpack(m[a]), BitAt(x.r - 16), Field(x.instr, 9, 9) == 1))]
    {
      hide Pack, Unpack, BitAt, Field, LowPortOf, Assign;
      var sss := x.r - 16;
      var a := IO_BASE + LowPortOf(x.instr);
      if Field(x.instr, 9, 9) == 1 {
        Store(a, Pack(Assign(Unpack(memory[a]), BitAt(sss), true)));
      } else {
        Store(a, Pack(Assign(Unpack(memory[a]), BitAt(sss), false)));
      }
    }

    // ----- moves, loads and stores -----

    method InstrMov(x: Idc)
      requires Valid()
      modifies memory
      ensures var m := old(Mem()); Mem() == m[x.d := m[x.r]]
    {
      Store(x.d, memory[x.r]);
    }

    method InstrMovw(x: Idc)
      requires Valid() && 16 <= x.d && 16 <= x.r
      modifies memory
      ensures var m := old(Mem()); Mem() == PutWord(m, 2 * (x.d - 16), WordAt(m, 2 * (x.r - 16)))
    {
      var w := LoadWord(2 * (x.r - 16));
      StoreWord(2 * (x.d - 16), w);
    }

    method InstrSwap(x: Idc)
      requires Valid()
      modifies memory
      ensures var m := old(Mem()); Mem() == m[x.d := Swapped(m[x.d])]
    {
      hide Swapped;
      var rd := memory[x.d];
      SwapShift(rd);
      Store(x.d, rd / 16 + (rd as int * 16) % 256);
    }

    method InstrIn(x: Idc)
      requires Valid()
      modifies memory
      ensures var m := old(Mem()); Mem() == m[x.d := m[IO_BASE + PortOf(x.instr)]]
    {
      Store(x.d, memory[IO_BASE + PortOf(x.instr)]);
    }

    method InstrOut(x: Idc)
      requires Valid()
      modifies memory
      ensures var m := old(Mem()); Mem() == m[IO_BASE + PortOf(x.instr) := m[x.d]]
    {
      Store(IO_BASE + PortOf(x.instr), memory[x.d]);
    }

    method InstrLds(x: Idc)
      requires Valid()
      modifies memory
      ensures Mem() == old(Mem())[x.d := old(Mem())[LdsAddr(old(Abs()), x.imm)]]
    {
      var addr: int := x.imm;
      if !max64k {
        addr := addr + 0x1_0000 * (memory[RAMPD] as int);
      }
      Store(x.d, memory[addr]);
    }

    method InstrSts(x: Idc)
      requires Valid()
      modifies memory
      ensures Mem() == old(Mem())[StsAddr(old(Abs()), x.imm) := old(Mem())[x.d]]
    {
      var addr: int := x.imm;
      if !max64k {
        addr := addr + 0x1_0000 * (memory[RAMPD] as int);
      } else if max256b {
        addr := addr % 256;
      }
      Store(addr, memory[x.d]);
    }

    method LoadPointer(rp: reg, extaddr: nat, ghost p: Pointer) returns (addr: nat)
      requires Valid() && rp == PairReg(p) && extaddr == RampReg(p)
      ensures addr == PointerAt(Mem(), p, max64k)
    {
      var low := LoadWord(rp);
      addr := low;
      if !max64k {
        addr := addr + 0x1_0000 * (memory[extaddr] as int);
      }
    }

    /** The address computation of instr_ldst_common. */
    method Effective(rp: reg, extaddr: nat, ghost p: Pointer, mode: nat, displace: small) returns (addr: nat)
      requires Valid() && rp == PairReg(p) && extaddr == RampReg(p)
      ensures addr == Target(Abs(), p, ModeOf(mode, displace))
    {
      hide PointerAt, Clip;
      addr := LoadPointer(rp, extaddr, p);
      if mode == 2 {
        addr := (addr - 1) % 0x100_0000;
      }
      if mode != 1 && mode != 2 {
        addr := (addr + displace) % 0x100_0000;
      }
      addr := ClipAddress(addr);
    }

    method ClipAddress(a: nat) returns (addr: nat)
      requires a < MEM_SIZE
      ensures addr == Clip(a, max64k, max256b)
    {
      addr := a;
      if max256b {
        addr := addr % 0x100;
      } else if max64k {
        addr := addr % 0x1_0000;
      }
    }

    /** The pointer update of instr_ldst_common. */
    method WriteBack(rp: reg, extaddr: nat, ghost p: Pointer, addr: nat)
      requires Valid() && rp == PairReg(p) && extaddr == RampReg(p) && addr <= MEM_SIZE
      modifies memory
      ensures Mem() == PutPointer(old(Mem()), p, addr, max64k, max256b)
    {
      if max256b {
        Store(rp, addr % 256);
      } else {
        StoreWord(rp, addr % 0x1_0000);
        if !max64k {
          Store(extaddr, addr / 0x1_0000 % 256);
        }
      }
    }

    /** instr_ldst_common: mode 1 is post-increment, mode 2 pre-decrement, anything else a displacement. */
    method LdstCommon(rp: reg, extaddr: nat, ghost p: Pointer, mode: nat, displace: small, store: bool, d: reg)
      returns (ok: bool)
      requires Valid() && rp == PairReg(p) && extaddr == RampReg(p)
      modifies memory
      ensures ok == Faults(LdSt(p, ModeOf(mode, displace), d, store), pc22).None?
      ensures !ok ==> Faults(LdSt(p, ModeOf(mode, displace), d, store), pc22) == Some(IllegalOperands)
      ensures ok ==> Mem() == LoadStore(old(Abs()), p, ModeOf(mode, displace), d, store)
    {
      hide Target, PutPointer;
      var postinc, predec := mode == 1, mode == 2;
      if (predec || postinc) && (d == rp || d == rp + 1) {
        return false;
      }
      var addr := Effective(rp, extaddr, p, mode, displace);
      if store {
        Store(addr, memory[d]);
      } else {
        Store(d, memory[addr]);
      }
      if postinc {
        addr := addr + 1;
      }
      if postinc || predec {
        WriteBack(rp, extaddr, p, addr);
      }
      ok := true;
    }

    method InstrLdxStx(x: Idc, store: bool) returns (ok: bool)
      requires Valid()
      modifies memory
      ensures var i := LdSt(PtrX, ModeOf(Field(x.instr, 1, 0), 0), x.d, store);
        && ok == Faults(i, pc22).None?
        && (!ok ==> Faults(i, pc22) == Some(IllegalOperands))
        && (ok ==> Mem() == MemAfter(rom, i, old(Abs())))
    {
      hide PopPcMem;
      ok := LdstCommon(REGP_X, RAMPX, PtrX, Field(x.instr, 1, 0), 0, store, x.d);
    }

    method InstrLdyzStyz(x: Idc, store: bool) returns (ok: bool)
      requires Valid()
      modifies memory
      ensures var i := LdSt(YzPointer(x.instr), YzMode(x.instr), x.d, store);
        && ok == Faults(i, pc22).None?
        && (!ok ==> Faults(i, pc22) == Some(IllegalOperands))
        && (ok ==> Mem() == MemAfter(rom, i, old(Abs())))
    {
      hide LoadStore, Field, MemAfter;
      LdstEffect(rom, YzPointer(x.instr), YzMode(x.instr), x.d, store, Abs());
      var mode: nat, displace: small;
      if Field(x.instr, 12, 12) == 0 {
        mode := 0;
        displace := 32 * Field(x.instr, 13, 13) + 8 * Field(x.instr, 11, 10) + Field(x.instr, 2, 0);
      } else {
        mode := Field(x.instr, 1, 0);
        displace := 0;
      }
      if Field(x.instr, 3, 3) == 1 {
        ok := LdstCommon(REGP_Y, RAMPY, PtrY, mode, displace, store, x.d);
      } else {
        ok := LdstCommon(REGP_Z, RAMPZ, PtrZ, mode, displace, store, x.d);
      }
    }

    /** The flash byte that LPM and ELPM load; romword's range assertion always holds. */
    method LoadProgram(ext: bool) returns (addr: nat, b: byte)
      requires Valid()
      ensures addr == LpmAddr(Mem(), ext) && b == LpmByte(rom, addr)
    {
      var low := LoadWord(REGP_Z);
      addr := low;
      if ext {
        addr := addr + 0x1_0000 * (memory[RAMPZ] as int);
      }
      assert addr / 2 < FLASH_SIZE;
      var word := rom.flash[addr / 2];
      b := if addr % 2 != 0 then Field(word, 15, 8) else Field(word, 7, 0);
    }

    method InstrElpm(x: Idc)
      requires Valid()
      modifies memory
      ensures Mem() == old(Mem())[0 := LpmByte(rom, LpmAddr(old(Mem()), Field(x.instr, 4, 4) == 1))]
    {
      hide LpmAddr, LpmByte, Field;
      var _, b := LoadProgram(Field(x.instr, 4, 4) == 1);
      Store(0, b);
    }

    method InstrElpmz(x: Idc) returns (ok: bool)
      requires Valid()
      modifies memory
      ensures ok == !(Field(x.instr, 0, 0) == 1 && x.d >= 30)
      ensures var m := old(Mem());
        var a := LpmAddr(m, Field(x.instr, 1, 1) == 1);
        var m1 := m[x.d := LpmByte(rom, a)];
        ok ==> Mem() == if Field(x.instr, 0, 0) == 1 then PutWord(m1, REGP_Z, (a + 1) % 0x1_0000) else m1
    {
      hide LpmAddr, LpmByte, Field;
      var ext, postinc := Field(x.instr, 1, 1) == 1, Field(x.instr, 0, 0) == 1;
      if postinc && (x.d == 30 || x.d == 31) {
        return false;
      }
      var addr, b := LoadProgram(ext);
      Store(x.d, b);
      if postinc {
        StoreWord(REGP_Z, (addr + 1) % 0x1_0000);
      }
      ok := true;
    }

    method InstrXch(x: Idc)
      requires Valid()
      modifies memory
      ensures var m := old(Mem());
        var a := WordAt(m, REGP_Z);
        Mem() == m[a := ApplyXch(XchOpOf(x.instr), m[a], m[x.d])][x.d := m[a]]
    {
      hide Pack, Unpack, Field, Apply, Cleared;
      var rd := memory[x.d];
      var addr := LoadWord(REGP_Z);
      var res := memory[addr];
      match Field(x.instr, 1, 0) {
        case 0 => Store(addr, rd);
        case 1 => Store(addr, Apply(OrOp, res, rd));
        case 2 => Store(addr, Cleared(res, rd));
        case _ => Store(addr, Apply(XorOp, res, rd));
      }
      Store(x.d, res);
    }

    method InstrPop(x: Idc)
      requires Valid()
      modifies memory
      ensures var m := old(Mem()); Mem() == PopMem(m)[x.d := PopByte(m)]
    {
      hide PopMem, PopByte;
      var b := Pop8();
      Store(x.d, b);
    }

    method InstrDes(x: Idc)
      requires Valid() && 16 <= x.d
      modifies memory
      ensures Mem() == DesMem(rom, old(Mem()), x.d - 16)
    {
      hide Has, Unpack;
      if x.d - 16 < 15 {
        return;
      }
      var key, inp := memory[8..16], memory[0..8];
      var decrypt := Has(Unpack(memory[SREG]), H);
      ghost var m := Mem();
      assert key == m[8..16] && inp == m[0..8];
      Store(0, rom.des(key, inp, decrypt, 0));
      Store(1, rom.des(key, inp, decrypt, 1));
      Store(2, rom.des(key, inp, decrypt, 2));
      Store(3, rom.des(key, inp, decrypt, 3));
      Store(4, rom.des(key, inp, decrypt, 4));
      Store(5, rom.des(key, inp, decrypt, 5));
      Store(6, rom.des(key, inp, decrypt, 6));
      Store(7, rom.des(key, inp, decrypt, 7));
    }

    // ----- control flow -----

    method InstrCpse(x: Idc)
      requires Valid()
      modifies `skip
      ensures skip == (old(skip) || SkipAfter(SkipEq(x.d, x.r), Mem()))
    {
      if memory[x.d] == memory[x.r] {
        skip := true;
      }
    }

    method InstrSbics(x: Idc)
      requires Valid() && 16 <= x.r < 24
      modifies `skip
      ensures skip == (old(skip) || SkipAfter(SkipIo(LowPortOf(x.instr), x.r - 16, Field(x.instr, 9, 9) == 1), Mem()))
    {
      hide Has, Unpack, Field, BitAt, LowPortOf;
      var ifset := Field(x.instr, 9, 9) == 1;
      var bit := Has(Unpack(memory[IO_BASE + LowPortOf(x.instr)]), BitAt(x.r - 16));
      if ifset == bit {
        skip := true;
      }
    }

    method InstrSbrcs(x: Idc)
      requires Valid() && 16 <= x.r < 24
      modifies `skip
      ensures skip == (old(skip) || SkipAfter(SkipBit(x.d, x.r - 16, Field(x.instr, 9, 9) == 1), Mem()))
    {
      hide Has, Unpack, Field, BitAt;
      var ifset := Field(x.instr, 9, 9) == 1;
      var bit := Has(Unpack(memory[x.d]), BitAt(x.r - 16));
      if ifset == bit {
        skip := true;
      }
    }

    method InstrBrb(x: Idc)
      requires Valid() && 16 <= x.r < 24 && instrSize == 1
      modifies `pc
      ensures Landed(Branch(x.r - 16, Field(x.instr, 10, 10) == 0, BranchOffset(x.instr)), old(Abs()))
    {
      hide Has, Unpack, Field, BitAt, BranchOffset, MemAfter, PcAfter, Wrap;
      BranchEffect(rom, x.r - 16, Field(x.instr, 10, 10) == 0, BranchOffset(x.instr), Abs());
      var sss, clr := x.r - 16, Field(x.instr, 10, 10) == 1;
      var offset := BranchOffset(x.instr);
      if Has(Unpack(memory[SREG]), BitAt(sss)) && !clr {
        WrapAdd(pc + offset, 1);
        pc := Wrap(pc + offset);
      } else if !Has(Unpack(memory[SREG]), BitAt(sss)) && clr {
        WrapAdd(pc + offset, 1);
        pc := Wrap(pc + offset);
      }
    }

    method InstrJmp(x: Idc)
      requires Valid() && instrSize == 2
      modifies `pc
      ensures Landed(Jmp(HighOf(x.instr), x.imm), old(Abs()))
    {
      hide HighOf, Wrap;
      var addr: u32 := x.imm;
      if pc22 {
        addr := addr + 0x1_0000 * (HighOf(x.instr) as int);
      }
      pc := Wrap(addr - instrSize);
      WrapAdd(addr - instrSize, instrSize);
      WrapSmall(addr);
    }

    method InstrCall(x: Idc)
      requires Valid() && instrSize == 2 && pc == pcStart
      modifies `pc, memory
      ensures Landed(Call(HighOf(x.instr), x.imm), old(Abs()))
    {
      hide HighOf, PushPc, MemAfter, PcAfter, Wrap;
      CallEffect(rom, HighOf(x.instr), x.imm, Abs());
      PushReturn(Wrap(pcStart + 2));
      var addr: u32 := x.imm;
      if pc22 {
        addr := addr + 0x1_0000 * (HighOf(x.instr) as int);
      }
      pc := Wrap(addr - instrSize);
      WrapAdd(addr - instrSize, instrSize);
      WrapSmall(addr);
    }

    method InstrRcalljmp(x: Idc)
      requires Valid() && instrSize == 1 && pc == pcStart
      modifies `pc, memory
      ensures Landed(RelJump(JumpOffset(x.instr), Field(x.instr, 12, 12) == 1), old(Abs()))
    {
      hide Field, JumpOffset, PushPc, MemAfter, PcAfter, Wrap;
      RelJumpEffect(rom, JumpOffset(x.instr), Field(x.instr, 12, 12) == 1, Abs());
      if Field(x.instr, 12, 12) == 1 {
        PushReturn(Wrap(pcStart + 1));
      }
      WrapAdd(pc + JumpOffset(x.instr), 1);
      pc := Wrap(pc + JumpOffset(x.instr));
    }

    method InstrEicalljump(x: Idc) returns (ok: bool)
      requires Valid() && instrSize == 1 && pc == pcStart
      modifies `pc, memory
      ensures ok == (Field(x.instr, 4, 4) == 1 ==> pc22)
      ensures ok ==> Landed(IndJump(Field(x.instr, 4, 4) == 1, Field(x.instr, 8, 8) == 1), old(Abs()))
    {
      hide PushPc, Field, MemAfter, PcAfter, Wrap;
      IndJumpEffect(rom, Field(x.instr, 4, 4) == 1, Field(x.instr, 8, 8) == 1, Abs());
      var low := LoadWord(REGP_Z);
      var addr: u32 := low;
      var ext, call := Field(x.instr, 4, 4) == 1, Field(x.instr, 8, 8) == 1;
      if ext && pc22 {
        addr := addr + 0x1_0000 * (memory[EIND] as int);
      } else if ext {
        return false;
      }
      if call {
        PushReturn(Wrap(pcStart + 1));
      }
      pc := Wrap(addr - instrSize);
      WrapAdd(addr - instrSize, instrSize);
      WrapSmall(addr);
      ok := true;
    }

    method RetCommon()
      requires Valid() && instrSize == 1
      modifies `pc, memory
      ensures Mem() == PopPcMem(old(Mem()), pc22)
      ensures Wrap(pc + 1) == PopPc(old(Mem()), pc22)
    {
      hide PopMem, PopByte, Wrap;
      var hi := Pop8();
      var lo := Pop8();
      var addr: u32 := 256 * (hi as int) + lo;
      if pc22 {
        var low := Pop8();
        addr := (256 * addr + low) % 0x40_0000;
      }
      pc := Wrap(addr - instrSize);
      WrapAdd(addr - instrSize, instrSize);
      WrapSmall(addr);
    }

    method InstrRet()
      requires Valid() && instrSize == 1
      modifies `pc, memory
      ensures Landed(Ret(false), old(Abs()))
    {
      hide PopPcMem, PopPc;
      RetCommon();
    }

    method InstrReti()
      requires Valid() && instrSize == 1
      modifies `pc, memory
      ensures Landed(Ret(true), old(Abs()))
    {
      hide PopPcMem, PopPc, Pack, Unpack, Assign;
      RetCommon();
      Store(SREG, Pack(Assign(Unpack(memory[SREG]), I, true)));
    }

    // ----- dispatch -----

    /** Handlers of addition, subtraction and comparison. */
    method ExecArith(h: Handler, x: Idc) returns (fx: Masks)
      requires Valid() && Laid(h, x) && IsArith(h)
      modifies memory
      ensures Leaves(fx, AluMem(rom, Decode(h, x.instr, x.imm), old(Mem())))
    {
      hide Field, Has, Unpack, Flags, SetFlags, WordAt, SubMem, LogicMem, StepMem, ShiftMem, WideMem, DesMem,
           LogicFlags, SubFlags, Product;
      if h.HAdc? {
        fx := InstrAdc(x);
      } else if h.HCpc? {
        fx := InstrCpc(x);
      } else if h.HCpi? {
        fx := InstrCpi(x);
      } else if h.HAdiw? {
        fx := InstrAdiw(x);
      } else if h.HSbiw? {
        fx := InstrSbiw(x);
      } else if h.HCom? {
        fx := InstrCom(x);
      } else if h.HNeg? {
        fx := InstrNeg(x);
      } else if h.HInc? {
        fx := InstrInc(x);
      } else {
        fx := InstrDec(x);
      }
    }

    /** Handlers of logic and shifts. */
    method ExecLogic(h: Handler, x: Idc) returns (fx: Masks)
      requires Valid() && Laid(h, x) && IsLogic(h)
      modifies memory
      ensures Leaves(fx, AluMem(rom, Decode(h, x.instr, x.imm), old(Mem())))
    {
      hide Field, Has, Unpack, Pack, Assign, ShiftMem, WideMem, LogicFlags, SubFlags, Product;
      if h.HAnd? {
        fx := InstrLogic(AndOp, x.d, memory[x.r]);
      } else if h.HOr? {
        fx := InstrLogic(OrOp, x.d, memory[x.r]);
      } else if h.HXor? {
        fx := InstrLogic(XorOp, x.d, memory[x.r]);
      } else if h.HAndi? {
        fx := InstrLogic(AndOp, x.d, x.k);
      } else if h.HOri? {
        fx := InstrLogic(OrOp, x.d, x.k);
      } else if h.HAsr? {
        fx := InstrAsr(x);
      } else if h.HLsr? {
        fx := InstrLsr(x);
      } else {
        fx := InstrRor(x);
      }
    }

    /** Multiplications and single flags. */
    method ExecMul(h: Handler, x: Idc) returns (fx: Masks)
      requires Valid() && Laid(h, x) && IsMul(h)
      modifies memory
      ensures Leaves(fx, AluMem(rom, Decode(h, x.instr, x.imm), old(Mem())))
    {
      hide Field, Unpack, Pack, Assign, BitAt, Flags, SetFlags, WordAt, PutWord, Masks.Disjoint, MulMem, AddMem,
           Apply, Swapped;
      if h.HMul? {
        fx := InstrMul(x, false, false);
      } else if h.HMuls? {
        fx := InstrMul(x, true, true);
      } else if h.HMulsu? {
        fx := InstrMul(x, true, false);
      } else if h.HFmul? {
        fx := InstrFmul(x, false, false);
      } else if h.HFmulsu? {
        fx := InstrFmul(x, true, Field(x.instr, 3, 3) == 0);
      } else if h.HBclrset? {
        fx := InstrBclrset(x);
      } else {
        fx := InstrBst(x);
      }
    }

    /** Handlers that change registers or I/O bits and mark no flags. */
    method ExecPlain(h: Handler, x: Idc)
      requires Valid() && Laid(h, x) && IsPlain(h)
      modifies memory
      ensures Mem() == AluMem(rom, Decode(h, x.instr, x.imm), old(Mem()))
    {
      hide Field, Unpack, Pack, Assign, BitAt, WordAt, PutWord, BranchOffset, PortOf, YzPointer, ShiftMem, WideMem,
           DesMem;
      if h.HBld? {
        InstrBld(x);
      } else if h.HCbisbi? {
        InstrCbisbi(x);
      } else if h.HMov? {
        InstrMov(x);
      } else if h.HMovw? {
        InstrMovw(x);
      } else if h.HSwap? {
        InstrSwap(x);
      } else if h.HIn? {
        InstrIn(x);
      } else if h.HLdi? {
        Store(x.d, x.k);
      } else if h.HDes? {
        InstrDes(x);
      }
    }

    /** Handlers that load or store through a pointer. */
    method ExecLdst(h: Handler, x: Idc) returns (ok: bool)
      requires Valid() && Laid(h, x) && IsLdst(h)
      modifies memory
      ensures var i := Decode(h, x.instr, x.imm);
        && ok == Faults(i, pc22).None?
        && (!ok ==> Faults(i, pc22) == Some(IllegalOperands))
        && (ok ==> Mem() == MemAfter(rom, i, old(Abs())))
    {
      hide MemAfter, Field, ModeOf, YzMode, YzPointer;
      if h.HLdx? {
        ok := InstrLdxStx(x, false);
      } else if h.HStx? {
        ok := InstrLdxStx(x, true);
      } else if h.HLdyz? {
        ok := InstrLdyzStyz(x, false);
      } else {
        ok := InstrLdyzStyz(x, true);
      }
    }

    /** Handlers that move data between registers and memory in other ways. */
    method ExecTransfer(h: Handler, x: Idc) returns (ok: bool)
      requires Valid() && Laid(h, x) && IsTransfer(h)
      modifies memory
      ensures var i := Decode(h, x.instr, x.imm);
        && ok == Faults(i, pc22).None?
        && (!ok ==> Faults(i, pc22) == Some(IllegalOperands))
        && (ok ==> Mem() == MemAfter(rom, i, old(Abs())))
    {
      hide Field, Unpack, Pack, WordAt, PutWord, LoadStore, LdsAddr, StsAddr, LpmAddr, LpmByte, ApplyXch, PopMem,
           PopByte, PushByte, PushPc, PopPcMem, BranchOffset, YzMode, YzPointer, ModeOf, AluMem;
      ok := true;
      if h.HLds? {
        InstrLds(x);
      } else if h.HSts? {
        InstrSts(x);
      } else if h.HElpm? {
        InstrElpm(x);
      } else if h.HElpmz? {
        ok := InstrElpmz(x);
      } else if h.HXch? {
        InstrXch(x);
      } else if h.HOut? {
        InstrOut(x);
      } else if h.HPop? {
        InstrPop(x);
      } else {
        Push8(memory[x.d]);
      }
    }

    /** Handlers that may ask for the next instruction to be skipped. */
    method ExecSkip(h: Handler, x: Idc)
      requires Valid() && Laid(h, x) && IsSkip(h) && !skip
      modifies `skip
      ensures skip == SkipAfter(Decode(h, x.instr, x.imm), Mem())
    {
      hide Field, SkipAfter, Decode, Laid;
      SkipDecodes(h, x);
      if h.HCpse? {
        InstrCpse(x);
      } else if h.HSbics? {
        InstrSbics(x);
      } else {
        InstrSbrcs(x);
      }
    }

    /** Branches, jumps and returns. */
    method ExecJump(h: Handler, x: Idc)
      requires Valid() && Laid(h, x) && IsJump(h)
      requires pc == pcStart && instrSize == Size(Decode(h, x.instr, x.imm))
      modifies `pc, memory
      ensures Landed(Decode(h, x.instr, x.imm), old(Abs()))
    {
      hide Landed, Decode, Laid, Size, Field, BranchOffset, HighOf;
      JumpDecodes(h, x);
      if h.HBrb? {
        InstrBrb(x);
      } else if h.HJmp? {
        InstrJmp(x);
      } else if h.HRet? {
        InstrRet();
      } else {
        InstrReti();
      }
    }

    /** Calls, and the relative and indirect jumps that share their code. */
    method ExecCall(h: Handler, x: Idc) returns (ok: bool)
      requires Valid() && Laid(h, x) && IsCall(h)
      requires pc == pcStart && instrSize == Size(Decode(h, x.instr, x.imm))
      modifies `pc, memory
      ensures ok ==> Landed(Decode(h, x.instr, x.imm), old(Abs()))
      ensures Faults(Decode(h, x.instr, x.imm), pc22) == if ok then None else Some(IllegalOperands)
    {
      hide Landed, Decode, Laid, Size, Faults, Field, JumpOffset, HighOf;
      CallDecodes(h, x);
      CallFaults(h, x, pc22);
      ok := true;
      if h.HCall? {
        InstrCall(x);
      } else if h.HRcalljmp? {
        InstrRcalljmp(x);
      } else {
        ok := InstrEicalljump(x);
      }
    }

    /** The masks are fx and everything else is as instruction i leaves it from state s. */
    ghost predicate Done(i: Insn, s: State, fx: Masks)
      requires Valid()
      reads this, memory
    {
      && Faults(i, s.pc22).None? && Leaves(fx, MemAfter(rom, i, s))
      && Wrap(pc + instrSize) == PcAfter(i, s) && skip == SkipAfter(i, s.mem)
    }

    /** Handlers that mark flags. */
    method ExecFlagged(h: Handler, x: Idc) returns (fx: Masks)
      requires Valid() && Laid(h, x) && !skip && instrSize == Size(Decode(h, x.instr, x.imm))
      requires IsArith(h) || IsLogic(h) || IsMul(h)
      modifies memory
      ensures Done(Decode(h, x.instr, x.imm), old(Abs()), fx)
    {
      hide Decode, Size, Faults, MemAfter, PcAfter, SkipAfter, AluMem, IsArith, IsLogic, IsMul, IsPlain, Laid, Wrap,
           Leaves;
      AluShape(rom, h, x.instr, x.imm, Abs());
      if IsArith(h) {
        fx := ExecArith(h, x);
      } else if IsLogic(h) {
        fx := ExecLogic(h, x);
      } else {
        fx := ExecMul(h, x);
      }
    }

    lemma Unmarked(m: Memory)
      requires Valid() && Mem() == m
      ensures Leaves(NO_MASKS, m)
    {
      NoFlags(m);
    }

    /** Handlers that transfer data and mark no flags. */
    method ExecData(h: Handler, x: Idc) returns (ok: bool)
      requires Valid() && Laid(h, x) && !skip && instrSize == Size(Decode(h, x.instr, x.imm))
      requires IsPlain(h) || IsLdst(h) || IsTransfer(h)
      modifies memory
      ensures ok ==> Done(Decode(h, x.instr, x.imm), old(Abs()), NO_MASKS)
      ensures !ok ==> Faults(Decode(h, x.instr, x.imm), pc22) == Some(IllegalOperands)
    {
      hide Decode, Size, Faults, MemAfter, PcAfter, SkipAfter, AluMem, IsArith, IsLogic, IsMul, IsPlain, IsLdst,
           IsTransfer, Laid, Wrap, Leaves;
      ghost var s := Abs();
      ok := true;
      if IsPlain(h) {
        AluShape(rom, h, x.instr, x.imm, s);
        ExecPlain(h, x);
      } else if IsLdst(h) {
        LdstShape(h, x.instr, x.imm, s);
        ok := ExecLdst(h, x);
      } else {
        TransferShape(h, x.instr, x.imm, s);
        ok := ExecTransfer(h, x);
      }
      Unmarked(Mem());
    }

    /** Handlers that decide where to go on. */
    method ExecControl(h: Handler, x: Idc) returns (ok: bool)
      requires Valid() && Laid(h, x) && pc == pcStart && !skip && instrSize == Size(Decode(h, x.instr, x.imm))
      requires IsSkip(h) || IsJump(h) || IsCall(h)
      modifies `pc, `skip, memory
      ensures ok ==> Done(Decode(h, x.instr, x.imm), old(Abs()), NO_MASKS)
      ensures !ok ==> Faults(Decode(h, x.instr, x.imm), pc22) == Some(IllegalOperands)
    {
      hide Decode, Size, Faults, MemAfter, PcAfter, SkipAfter, IsSkip, IsJump, IsCall, Laid, Wrap, Leaves;
      ghost var s := Abs();
      ok := true;
      if IsSkip(h) {
        SkipHandlerShape(rom, h, x.instr, x.imm, s);
        ExecSkip(h, x);
      } else if IsJump(h) {
        JumpShape(h, x.instr, x.imm, s);
        ExecJump(h, x);
      } else {
        CallShape(h, x.instr, x.imm, s);
        ok := ExecCall(h, x);
      }
      Unmarked(Mem());
    }

    /** The call through the code pointer of a table entry. */
    method Execute(h: Handler, x: Idc) returns (fx: Outcome<Masks>)
      requires Valid() && Laid(h, x) && pc == pcStart && !skip
      requires instrSize == Size(Decode(h, x.instr, x.imm))
      modifies `pc, `skip, memory
      ensures var i := Decode(h, x.instr, x.imm);
        match Faults(i, pc22)
        case Some(why) => fx == Abort(why)
        case None => fx.Ok? && Done(i, old(Abs()), fx.value)
    {
      hide Decode, Size, Faults, MemAfter, PcAfter, SkipAfter, IsArith, IsLogic, IsMul, IsPlain, IsLdst, IsTransfer,
           IsSkip, IsJump, IsCall, Laid, Wrap, Leaves;
      if IsArith(h) || IsLogic(h) || IsMul(h) {
        var masks := ExecFlagged(h, x);
        return Ok(masks);
      }
      var ok := true;
      if IsPlain(h) || IsLdst(h) || IsTransfer(h) {
        ok := ExecData(h, x);
      } else if IsSkip(h) || IsJump(h) || IsCall(h) {
        ok := ExecControl(h, x);
      } else {
        RestShape(h, x.instr, x.imm, Abs());
        return Abort(NotImplemented);
      }
      fx := if ok then Ok(NO_MASKS) else Abort(IllegalOperands);
    }

    // ----- emulate1 -----

    /** The table search. */
    method Search(instr: bv16) returns (i: nat)
      ensures i <= |rom.table|
      ensures Lookup(rom.table, instr) == if i < |rom.table| then Some(rom.table[i]) else None
    {
      i := 0;
      assert rom.table[0..] == rom.table;
      while i < |rom.table|
        invariant i <= |rom.table|
        invariant Lookup(rom.table, instr) == Lookup(rom.table[i..], instr)
      {
        assert rom.table[i..][1..] == rom.table[i + 1..];
        if Matches(rom.table[i], instr) {
          return;
        }
        i := i + 1;
      }
    }

    /** From the restart label up to the point where the instruction's length is known. */
    method FetchEntry() returns (r: Outcome<(Entry, bv16, word)>)
      requires Valid()
      modifies `pcStart, `instrSize
      ensures pcStart == pc
      ensures match r
        case Abort(why) => Fetch(rom, pc) == Abort(why)
        case Ok((e, instr, imm)) =>
          && Fetch(rom, pc) == Ok(Decode(e.code, instr, imm)) && WellLaid(e)
          && instrSize == Size(Decode(e.code, instr, imm)) && pc + instrSize <= FLASH_SIZE && rom.flash[pc] == instr
    {
      hide Decode, Layout, Field, Size;
      pcStart := pc;
      instrSize := 1;
      if pc >= FLASH_SIZE {
        return Abort(PcOutOfRange);
      }
      var instr := rom.flash[pc];
      var i := Search(instr);
      if i == |rom.table| {
        return Abort(IllegalWord);
      }
      var e, imm := rom.table[i], 0;
      assert e in rom.table;
      if e.imm16 {
        if pc + 1 >= FLASH_SIZE {
          return Abort(PcOutOfRange);
        }
        imm := FullWord(rom.flash[pc + 1]);
        instrSize := instrSize + 1;
      }
      DecodeSize(e.code, instr, imm);
      r := Ok((e, instr, imm));
    }

    /** The operand fields of the decode structure, as the entry's flags ask for them. */
    method Operands(e: Entry, instr: bv16, imm: word) returns (x: Idc)
      requires WellLaid(e)
      ensures Laid(e.code, x) && x.instr == instr && x.imm == imm
    {
      hide D84Of, D74Of, D64Of, R9Of, R30Of, R20Of, K8Of, Layout;
      x := Idc(instr, 0, 0, 0, imm);
      match e.d {
        case NoD =>
        case D84 => x := x.(d := D84Of(instr));
        case D74 => x := x.(d := D74Of(instr));
        case D64 => x := x.(d := D64Of(instr));
      }
      match e.r {
        case NoR =>
        case R9 => x := x.(r := R9Of(instr));
        case R30 => x := x.(r := R30Of(instr));
        case R20 => x := x.(r := R20Of(instr));
      }
      if e.k {
        x := x.(k := K8Of(instr));
      }
    }

    method MergeFlags(fx: Masks)
      requires Valid()
      modifies memory
      ensures Mem() == SetFlags(old(Mem()), fx.Merge(Flags(old(Mem()))))
    {
      hide Pack, Unpack, SetFlags, Flags, Masks.Merge;
      ghost var m := Mem();
      MergeInPlace(m, fx);
      Store(SREG, Pack(Unpack(memory[SREG]) & !fx.off));
      Store(SREG, Pack(Unpack(memory[SREG]) | fx.on));
    }

    /** Everything emulate1 does between decoding an instruction and looking at the skip flag. */
    method ExecuteEntry(e: Entry, instr: bv16, imm: word) returns (out: Outcome<()>)
      requires Valid() && WellLaid(e) && pc == pcStart && !skip
      requires instrSize == Size(Decode(e.code, instr, imm))
      modifies `pc, `skip, `insns, memory
      ensures var i := Decode(e.code, instr, imm);
        match Faults(i, pc22)
        case Some(why) => out == Abort(why)
        case None => out.Ok? && Abs() == Exec(rom, i, old(Abs()))
    {
      hide Decode, Size, Faults, MemAfter, PcAfter, SkipAfter, Laid, Wrap, Layout, Masks.Merge, SetFlags, Flags;
      var x := Operands(e, instr, imm);
      var r := Execute(e.code, x);
      if r.Abort? {
        return Abort(r.why);
      }
      var fx := r.value;
      assert fx.Disjoint();
      MergeFlags(fx);
      pc := Wrap(pc + instrSize);
      insns := insns + 1;
      out := Ok(());
    }

    /** The words of the instruction just executed, for the binary trace. */
    method Emit() returns (emitted: seq<bv16>)
      requires pcStart + instrSize <= FLASH_SIZE
      ensures emitted == rom.flash[pcStart..pcStart + instrSize]
    {
      emitted := [];
      for k := 0 to instrSize
        invariant emitted == rom.flash[pcStart..pcStart + k]
      {
        emitted := emitted + [rom.flash[pcStart + k]];
      }
    }

    /** One instruction, and the decoding of the next one if it is to be skipped. */
    method Emulate1(tracing: bool) returns (out: Outcome<()>, emitted: seq<bv16>)
      requires Valid()
      modifies `pc, `pcStart, `instrSize, `skip, `insns, memory
      ensures match Step(rom, old(Abs()))
        case Ok(t) => out.Ok? && Abs() == t
        case Abort(why) => out == Abort(why)
      ensures emitted == if tracing then Traced(rom, old(Abs())) else []
    {
      hide Step, Traced, Decode, Faults, Fetch, SkipAfter, Wrap, WellLaid, Exec, Size;
      emitted := [];
      ghost var start := Abs();
      ghost var executed := false;
      while true
        invariant !executed ==> Abs() == start && emitted == []
        invariant executed ==>
          skip && emitted == (if tracing then Traced(rom, start) else []) && Step(rom, start) == PassOver(rom, Abs())
        decreases if skip then 0 else 1
      {
        if !executed {
          StepCases(rom, start);
        }
        var r := FetchEntry();
        if r.Abort? {
          return Abort(r.why), emitted;
        }
        var (e, instr, imm) := r.value;
        if skip {
          skip := false;
          pc := Wrap(pc + instrSize);
          return Ok(()), emitted;
        }
        out := ExecuteEntry(e, instr, imm);
        ExecFields(rom, Decode(e.code, instr, imm), start);
        if out.Abort? {
          return;
        }
        if tracing {
          emitted := Emit();
        }
        if !skip {
          return;
        }
        executed := true;
      }
    }
  }
}
