/**
 What each instruction that moves data or touches single bits does to the
 machine, one step at a time: registers, I/O cells, SREG bits, the stack, program
 memory and directly addressed data memory, all at literal addresses.
 */
module DataLaws {
  import opened Bytes
  import opened Isa
  import opened Alu
  import opened Cpu
  import opened Assembler
  import opened Fields
  import opened Laws

  /** The word in registers 30 and 31. */
  function ZOf(s: State): (a: nat)
    ensures a < 0x1_0000
  {
    s.mem[30] as int + 256 * s.mem[31] as int
  }

  /** The stack pointer, low byte at 0x5d. */
  function SpOf(s: State): (a: nat)
    ensures a < 0x1_0000
  {
    s.mem[0x5d] as int + 256 * s.mem[0x5e] as int
  }

  /** No byte outside the given cells has changed. */
  predicate Leaves(s: State, t: State, cells: set<int>) {
    forall x | 0 <= x < MEM_SIZE && x !in cells :: t.mem[x] == s.mem[x]
  }

  /** An instruction that runs and does not jump or skip: what is left is its effect on memory. */
  lemma Falls(rom: Rom, s: State, i: Insn)
    requires Runs(rom, s, i) && Faults(i, s.pc22).None? && !SkipAfter(i, s.mem) && PcAfter(i, s) == Wrap(s.pc + Size(i))
    ensures Step(rom, s).Ok?
    ensures var t := Step(rom, s).value; t.mem == MemAfter(rom, i, s) && t.pc == s.pc + Size(i) && !t.skip
  {
    hide Fetch, MemAfter, Wrap, Size, Faults, SkipAfter, PcAfter;
    FetchedInFlash(rom, s.pc);
    SmallSize(i);
    WrapSmall(s.pc + Size(i));
  }

  lemma SmallSize(i: Insn)
    ensures Size(i) <= 2
  {
  }

  // ----- registers -----

  /** NOP. */
  lemma NopLaw(rom: Rom, s: State)
    requires Runs(rom, s, Nop)
    ensures Step(rom, s).Ok? && OnlyWrites(s, Step(rom, s).value, {})
  {
    hide Fetch, Step;
    AluRuns(rom, s, Nop);
  }

  /** MOV. */
  lemma MovLaw(rom: Rom, s: State, d: reg, r: reg)
    requires Runs(rom, s, Mov(d, r))
    ensures Step(rom, s).Ok?
    ensures var t := Step(rom, s).value; t.mem[d] == s.mem[r] && OnlyWrites(s, t, {d as int})
  {
    hide Fetch, Step;
    AluRuns(rom, s, Mov(d, r));
  }

  /** MOVW. */
  lemma MovwLaw(rom: Rom, s: State, p: pair, from: pair)
    requires Runs(rom, s, Movw(p, from))
    ensures Step(rom, s).Ok?
    ensures var t := Step(rom, s).value;
      t.mem[p] == s.mem[from] && t.mem[p + 1] == s.mem[from + 1] && OnlyWrites(s, t, {p as int, p + 1})
  {
    hide Fetch, Step;
    AluRuns(rom, s, Movw(p, from));
  }

  /** LDI. */
  lemma LdiLaw(rom: Rom, s: State, d: reg, k: byte)
    requires Runs(rom, s, Ldi(d, k))
    ensures Step(rom, s).Ok?
    ensures var t := Step(rom, s).value; t.mem[d] == k && OnlyWrites(s, t, {d as int})
  {
    hide Fetch, Step;
    AluRuns(rom, s, Ldi(d, k));
  }

  /** SWAP exchanges the low and the high four bits. */
  lemma SwapLaw(rom: Rom, s: State, d: reg)
    requires Runs(rom, s, Swap(d))
    ensures Step(rom, s).Ok?
    ensures var t := Step(rom, s).value;
      && OnlyWrites(s, t, {d as int})
      && forall k: nat | k < 4 :: Bit(t.mem[d], k) == Bit(s.mem[d], k + 4) && Bit(t.mem[d], k + 4) == Bit(s.mem[d], k)
  {
    hide Fetch, Step, Bit, Swapped;
    AluRuns(rom, s, Swap(d));
    forall k: nat | k < 4
      ensures Bit(Swapped(s.mem[d]), k) == Bit(s.mem[d], k + 4) && Bit(Swapped(s.mem[d]), k + 4) == Bit(s.mem[d], k)
    {
      SwappedBit(s.mem[d], k);
    }
  }

  lemma SwappedBit(a: byte, k: nat)
    requires k < 4
    ensures Bit(Swapped(a), k) == Bit(a, k + 4) && Bit(Swapped(a), k + 4) == Bit(a, k)
  {
    hide Bit, Swapped;
    SwappedHalves(a);
    NibbleBit(a, k);
    NibbleBit(Swapped(a), k);
    BitHigh(a, k);
    BitHigh(Swapped(a), k);
  }

  lemma SwappedHalves(a: byte)
    ensures Swapped(a) / 16 == a % 16 && Swapped(a) % 16 == a / 16
  {
  }

  lemma NibbleBit(x: nat, k: nat)
    requires k < 4
    ensures Bit(x, k) == Bit(x % 16, k)
  {
    hide Bit;
    BitLow(x, x % 16, x / 16, 4, k);
  }

  lemma BitHigh(x: nat, k: nat)
    ensures Bit(x, k + 4) == Bit(x / 16, k)
  {
    hide Bit;
    BitUp(x, k + 4);
    BitUp(x / 2, k + 3);
    BitUp(x / 2 / 2, k + 2);
    BitUp(x / 2 / 2 / 2, k + 1);
    assert x / 2 / 2 / 2 / 2 == x / 16;
  }

  // ----- single bits -----

  /** y is x with bit b set to value. */
  predicate WithBit(x: byte, y: byte, b: bitno, value: bool) {
    forall k: nat | k < 8 :: Bit(y, k) == if k == b then value else Bit(x, k)
  }

  lemma AssignHas(f: Bits, b: bitno, value: bool, k: nat)
    requires k < 8
    ensures Has(Assign(f, BitAt(b), value), BitAt(k)) == if k == b then value else Has(f, BitAt(k))
  {
    hide Has, Assign;
    SameBit(f, BitAt(b), value);
    if k != b {
      Apart(b, k);
      OtherBit(f, BitAt(b), value, BitAt(k));
    }
  }

  lemma SameBit(f: Bits, m: Bits, value: bool)
    requires m != 0
    ensures Has(Assign(f, m, value), m) == value
  {
  }

  lemma Apart(b: nat, k: nat)
    requires b < 8 && k < 8 && b != k
    ensures BitAt(b) & BitAt(k) == 0
  {
  }

  lemma OtherBit(f: Bits, m: Bits, value: bool, n: Bits)
    requires m & n == 0
    ensures Has(Assign(f, m, value), n) == Has(f, n)
  {
  }

  lemma AssignedBit(x: byte, b: bitno, value: bool)
    ensures WithBit(x, Pack(Assign(Unpack(x), BitAt(b), value)), b, value)
  {
    hide Bit, Has, BitAt, Pack, Unpack, Assign;
    var f := Unpack(x);
    var g := Assign(f, BitAt(b), value);
    forall k: nat | k < 8 ensures Bit(Pack(g), k) == if k == b then value else Bit(x, k) {
      BitOfPack(g, k);
      AssignHas(f, b, value, k);
      BitOfUnpack(x, k);
    }
  }

  /** SBI and CBI. */
  lemma IoBitLaw(rom: Rom, s: State, port: lowport, b: bitno, value: bool)
    requires Runs(rom, s, IoBit(port, b, value))
    ensures Step(rom, s).Ok?
    ensures var t, a := Step(rom, s).value, 0x20 + port;
      WithBit(s.mem[a], t.mem[a], b, value) && OnlyWrites(s, t, {a})
  {
    hide Fetch, Step, WithBit, Pack, Unpack, BitAt, Assign;
    AluRuns(rom, s, IoBit(port, b, value));
    AssignedBit(s.mem[IO_BASE + port], b, value);
  }

  /** BSET and BCLR. */
  lemma SetFlagLaw(rom: Rom, s: State, b: bitno, value: bool)
    requires Runs(rom, s, SetFlag(b, value))
    ensures Step(rom, s).Ok?
    ensures var t := Step(rom, s).value; WithBit(s.mem[0x5f], t.mem[0x5f], b, value) && OnlyWrites(s, t, {0x5f})
  {
    hide Fetch, Step, WithBit, Pack, Unpack, BitAt, Assign;
    AluRuns(rom, s, SetFlag(b, value));
    AssignedBit(s.mem[SREG], b, value);
  }

  /** BLD copies the T flag into a bit of a register. */
  lemma BldLaw(rom: Rom, s: State, d: reg, b: bitno)
    requires Runs(rom, s, Bld(d, b))
    ensures Step(rom, s).Ok?
    ensures var t := Step(rom, s).value;
      WithBit(s.mem[d], t.mem[d], b, TransferOf(s)) && OnlyWrites(s, t, {d as int})
  {
    hide Fetch, Step, WithBit, Pack, Unpack, BitAt, Assign, Bit, Has;
    AluRuns(rom, s, Bld(d, b));
    UnpackedBits(s.mem[SREG]);
    AssignedBit(s.mem[d], b, Has(Flags(s.mem), T));
  }

  /** BST copies a bit of a register into the T flag. */
  lemma BstLaw(rom: Rom, s: State, d: reg, b: bitno)
    requires Runs(rom, s, Bst(d, b))
    ensures Step(rom, s).Ok?
    ensures var t := Step(rom, s).value;
      WithBit(s.mem[0x5f], t.mem[0x5f], 6, Bit(s.mem[d], b)) && OnlyWrites(s, t, {0x5f})
  {
    hide Fetch, Step, WithBit, Pack, Unpack, Assign, Bit, Has, BitAt;
    AluRuns(rom, s, Bst(d, b));
    BitOfUnpack(s.mem[d], b);
    MaskNames();
    AssignedBit(s.mem[SREG], 6, Bit(s.mem[d], b));
  }

  // ----- I/O cells and direct addresses -----

  /** IN. */
  lemma InLaw(rom: Rom, s: State, d: reg, port: ioport)
    requires Runs(rom, s, In(d, port))
    ensures Step(rom, s).Ok?
    ensures var t := Step(rom, s).value; t.mem[d] == s.mem[0x20 + port] && OnlyWrites(s, t, {d as int})
  {
    hide Fetch, Step;
    AluRuns(rom, s, In(d, port));
  }

  /** OUT. */
  lemma OutLaw(rom: Rom, s: State, d: reg, port: ioport)
    requires Runs(rom, s, Out(d, port))
    ensures Step(rom, s).Ok?
    ensures var t := Step(rom, s).value; t.mem[0x20 + port] == s.mem[d] && OnlyWrites(s, t, {0x20 + port})
  {
    hide Fetch, Step;
    Falls(rom, s, Out(d, port));
  }

  /** LDS: RAMPD, at 0x58, extends the address unless memory is limited to 64 KiB. */
  lemma LdsLaw(rom: Rom, s: State, d: reg, addr: word)
    requires Runs(rom, s, Lds(d, addr))
    ensures Step(rom, s).Ok?
    ensures var t, a := Step(rom, s).value, addr as int + if s.max64k then 0 else 0x1_0000 * s.mem[0x58] as int;
      t.mem[d] == s.mem[a] && t.pc == s.pc + 2 && !t.skip && Leaves(s, t, {d as int})
  {
    hide Fetch, Step;
    Falls(rom, s, Lds(d, addr));
  }

  /** STS: the 256-byte model keeps one byte of the address, but only together with the 64 KiB limit. */
  lemma StsLaw(rom: Rom, s: State, d: reg, addr: word)
    requires Runs(rom, s, Sts(d, addr))
    ensures Step(rom, s).Ok?
    ensures var t := Step(rom, s).value;
      var a := if s.max64k && s.max256b then addr as int % 256
               else addr as int + if s.max64k then 0 else 0x1_0000 * s.mem[0x58] as int;
      t.mem[a] == s.mem[d] && t.pc == s.pc + 2 && !t.skip && Leaves(s, t, {a})
  {
    hide Fetch, Step;
    Falls(rom, s, Sts(d, addr));
  }

  // ----- the stack -----

  /** PUSH, with SP not pointing at itself. */
  lemma PushLaw(rom: Rom, s: State, d: reg)
    requires Runs(rom, s, Push(d))
    ensures Step(rom, s).Ok?
    ensures var t, sp := Step(rom, s).value, SpOf(s);
      && SpOf(t) == (if sp == 0 then 0xffff else sp - 1)
      && (sp != 0x5d && sp != 0x5e ==> t.mem[sp] == s.mem[d])
      && OnlyWrites(s, t, {sp as int, 0x5d, 0x5e})
  {
    hide Fetch, Step, AluMem;
    Falls(rom, s, Push(d));
  }

  /** POP reads above the new SP, at 0x10000 when SP wraps; a byte read from SP itself is the new one. */
  lemma PopLaw(rom: Rom, s: State, d: reg)
    requires Runs(rom, s, Pop(d))
    ensures Step(rom, s).Ok?
    ensures var t, sp := Step(rom, s).value, SpOf(s);
      && SpOf(t) == (if sp == 0xffff then 0 else sp + 1)
      && t.mem[d] == (if sp + 1 == 0x5d then 0x5d else if sp + 1 == 0x5e then 0 else s.mem[sp + 1])
      && OnlyWrites(s, t, {d as int, 0x5d, 0x5e})
  {
    hide Fetch, Step, AluMem;
    Falls(rom, s, Pop(d));
  }

  // ----- read, modify and write at Z -----

  /** What XCH, LAS, LAC and LAT make of a bit of the cell and the same bit of the register. */
  predicate XchBit(op: XchOp, cell: bool, rd: bool) {
    match op
    case Exchange => rd
    case SetBits => cell || rd
    case ClearBits => cell && !rd
    case ToggleBits => cell != rd
  }

  lemma ApplyXchBit(op: XchOp, cell: byte, rd: byte, k: nat)
    requires k < 8
    ensures Bit(ApplyXch(op, cell, rd), k) == XchBit(op, Bit(cell, k), Bit(rd, k))
  {
    hide Bit, Apply, Cleared;
    ApplyBit(OrOp, cell, rd, k);
    ApplyBit(XorOp, cell, rd, k);
    ClearedBit(cell, rd, k);
  }

  lemma XchRuns(rom: Rom, s: State, op: XchOp, d: reg)
    requires Runs(rom, s, Xch(op, d))
    ensures Step(rom, s).Ok?
    ensures var t, a := Step(rom, s).value, ZOf(s);
      && t.mem[d] == s.mem[a] && (a != d ==> t.mem[a] == ApplyXch(op, s.mem[a], s.mem[d]))
      && OnlyWrites(s, t, {d as int, a as int})
  {
    hide Fetch, Step, AluMem, ApplyXch;
    Falls(rom, s, Xch(op, d));
  }

  /** XCH, LAS, LAC and LAT: the cell at Z is combined with the register, which then gets the cell's old byte. */
  lemma XchLaw(rom: Rom, s: State, op: XchOp, d: reg)
    requires Runs(rom, s, Xch(op, d))
    ensures Step(rom, s).Ok?
    ensures var t, a := Step(rom, s).value, ZOf(s);
      && t.mem[d] == s.mem[a] && OnlyWrites(s, t, {d as int, a as int})
      && (a != d ==> forall k: nat | k < 8 :: Bit(t.mem[a], k) == XchBit(op, Bit(s.mem[a], k), Bit(s.mem[d], k)))
  {
    hide Fetch, Step, ApplyXch, Bit, XchBit;
    XchRuns(rom, s, op, d);
    forall k: nat | k < 8
      ensures Bit(ApplyXch(op, s.mem[ZOf(s)], s.mem[d]), k) == XchBit(op, Bit(s.mem[ZOf(s)], k), Bit(s.mem[d], k))
    {
      ApplyXchBit(op, s.mem[ZOf(s)], s.mem[d], k);
    }
  }

  // ----- program memory -----

  /** Every flash word is the word of a number. */
  lemma WordIsNumber(w: bv16)
    ensures w == NumberWord(Field(w, 7, 0) + 256 * Field(w, 15, 8))
  {
    hide NumberWord, Field;
    HalvesOf(w);
    NumberIff(w, Field(w, 15, 0));
  }

  lemma HalvesOf(w: bv16)
    ensures Field(w, 15, 0) == Field(w, 7, 0) + 256 * Field(w, 15, 8)
    ensures Field(w, 7, 0) < 256 && Field(w, 15, 8) < 256
  {
    hide Field, Up;
    FieldSplit(w, 15, 8, 0);
    UpEight(Field(w, 15, 8));
  }

  lemma UpEight(x: nat)
    ensures Up(8, x) == 256 * x
  {
  }

  /** The flash address ZOf, extended by RAMPZ, at 0x5b. */
  function LpmAt(s: State, ext: bool): (a: nat)
    ensures a < 0x100_0000
  {
    ZOf(s) + if ext then 0x1_0000 * s.mem[0x5b] as int else 0
  }

  /** LPM and ELPM: the byte at address Z, extended for ELPM; an even address has the low half of the word at half the
      address.  With Z+, Z is a word counting on, and RAMPZ stays. */
  lemma LpmLaw(rom: Rom, s: State, d: reg, ext: bool, inc: bool, x: word)
    requires Runs(rom, s, Lpm(d, ext, inc)) && (inc ==> d < 30) && rom.flash[LpmAt(s, ext) / 2] == NumberWord(x)
    ensures Step(rom, s).Ok?
    ensures var t := Step(rom, s).value;
      && t.mem[d] as int == (if LpmAt(s, ext) % 2 == 0 then x as int % 256 else x as int / 256)
      && (inc ==> ZOf(t) == if ZOf(s) == 0xffff then 0 else ZOf(s) + 1)
      && OnlyWrites(s, t, {d as int} + if inc then {30, 31} else {})
  {
    hide Fetch, Step, MemAfter, NumberWord, Field, LpmByte;
    Falls(rom, s, Lpm(d, ext, inc));
    LpmMemory(rom, s, Step(rom, s).value, d, ext, inc);
    LpmHalf(rom, LpmAddr(s.mem, ext), x);
  }

  lemma LpmMemory(rom: Rom, s: State, t: State, d: reg, ext: bool, inc: bool)
    requires t.mem == MemAfter(rom, Lpm(d, ext, inc), s) && (inc ==> d < 30)
    ensures LpmAddr(s.mem, ext) == LpmAt(s, ext) && t.mem[d] == LpmByte(rom, LpmAt(s, ext))
    ensures inc ==> ZOf(t) == if ZOf(s) == 0xffff then 0 else ZOf(s) + 1
    ensures Leaves(s, t, {d as int} + if inc then {30, 31} else {})
  {
    hide AluMem, LpmByte, PutWord, LpmAddr;
    LpmAddrIs(s, ext);
    if inc {
      NextZ(s.mem[d := LpmByte(rom, LpmAt(s, ext))], t, LpmAt(s, ext));
    }
  }

  lemma LpmAddrIs(s: State, ext: bool)
    ensures LpmAddr(s.mem, ext) == LpmAt(s, ext)
  {
  }

  lemma NextZ(m: Memory, t: State, a: nat)
    requires a % 0x1_0000 == m[30] as int + 256 * m[31] as int && t.mem == PutWord(m, 30, (a + 1) % 0x1_0000)
    ensures ZOf(t) == if a % 0x1_0000 == 0xffff then 0 else a % 0x1_0000 + 1
    ensures forall x | 0 <= x < MEM_SIZE && x != 30 && x != 31 :: t.mem[x] == m[x]
  {
    NextWord(a);
    ZPut(m, t, (a + 1) % 0x1_0000);
  }

  lemma NextWord(a: nat)
    ensures (a + 1) % 0x1_0000 == if a % 0x1_0000 == 0xffff then 0 else a % 0x1_0000 + 1
  {
    NextMod(a, 0x1_0000);
  }

  lemma ZPut(m: Memory, t: State, x: word)
    requires t.mem == PutWord(m, 30, x)
    ensures ZOf(t) == x
  {
  }

  lemma LpmHalf(rom: Rom, a: nat, x: word)
    requires a / 2 < FLASH_SIZE && rom.flash[a / 2] == NumberWord(x)
    ensures LpmByte(rom, a) as int == if a % 2 == 0 then x as int % 256 else x as int / 256
  {
    hide NumberWord, Field;
    var w := rom.flash[a / 2];
    HalvesOf(w);
    NumberIff(w, x);
  }

  // ----- DES -----

  /** DES does nothing before round 15; there r0 to r7 become the block that DES makes of the data in r0 to r7 under
      the key in r8 to r15, decrypting if H is set. */
  lemma DesLaw(rom: Rom, s: State, round: byte)
    requires Runs(rom, s, Des(round))
    ensures Step(rom, s).Ok?
    ensures var t := Step(rom, s).value;
      if round < 15 then OnlyWrites(s, t, {})
      else OnlyWrites(s, t, {0, 1, 2, 3, 4, 5, 6, 7})
           && forall k: nat | k < 8 :: t.mem[k] == rom.des(s.mem[8..16], s.mem[0..8], HalfOf(s), k)
  {
    hide Fetch, Step, Bit, Has, Unpack;
    AluRuns(rom, s, Des(round));
    UnpackedBits(s.mem[SREG]);
  }
}
