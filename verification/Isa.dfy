/**
 The instruction set: the decode table of main.c, and what each table entry
 makes of an instruction word.
 */
module Isa {
  import opened Bytes

  type reg = r: int | 0 <= r < 32
  type bitno = b: int | 0 <= b < 8
  type pair = r: int | 0 <= r < 32 && r % 2 == 0
  type small = x: int | 0 <= x < 64
  type ioport = p: int | 0 <= p < 64
  type lowport = p: int | 0 <= p < 32
  type word = x: int | 0 <= x < 0x1_0000

  /** The handler a table entry points to, one constructor per instr_* routine. */
  datatype Handler =
    | HNop | HMovw | HMuls | HMulsu | HFmul | HFmulsu | HCpc | HAdc | HCpse | HAnd | HXor | HOr
    | HMov | HCpi | HOri | HAndi | HLdyz | HStyz | HLds | HElpmz | HLdx | HPop | HSts | HXch | HStx
    | HPush | HCom | HNeg | HSwap | HInc | HAsr | HLsr | HRor | HBclrset | HDec | HDes | HJmp
    | HCall | HRet | HEicalljump | HReti | HUnimp | HElpm | HAdiw | HSbiw | HCbisbi | HSbics | HMul
    | HIn | HOut | HRcalljmp | HLdi | HBrb | HBld | HBst | HSbrcs

  /** Where a word holds its destination register (ddddd84, dddd74, ddd64). */
  datatype DForm = NoD | D84 | D74 | D64

  /** Where a word holds its source register (rrrrr9_30, rrrr30, rrr20). */
  datatype RForm = NoR | R9 | R30 | R20

  datatype Entry = Entry(pattern: bv16, mask: bv16, code: Handler, d: DForm, r: RForm, k: bool, imm16: bool)

  const ROWS := 68

  /** The decode table, row by row in the order main.c lists it. */
  function Row(k: nat): (e: Entry)
    requires k < ROWS
  {
    match k
    case 0 => Entry(0x0000, 0xffff, HNop, NoD, NoR, false, false)
    case 1 => Entry(0x0100, 0xff00, HMovw, D74, R30, false, false)
    case 2 => Entry(0x0200, 0xff00, HMuls, D74, R30, false, false)
    case 3 => Entry(0x0300, 0xff88, HMulsu, D64, R20, false, false)
    case 4 => Entry(0x0308, 0xff88, HFmul, D64, R20, false, false)
    case 5 => Entry(0x0380, 0xff80, HFmulsu, D64, R20, false, false)
    case 6 => Entry(0x0400, 0xec00, HCpc, D84, R9, false, false)
    case 7 => Entry(0x0800, 0xec00, HCpc, D84, R9, false, false)
    case 8 => Entry(0x0c00, 0xec00, HAdc, D84, R9, false, false)
    case 9 => Entry(0x1000, 0xfc00, HCpse, D84, R9, false, false)
    case 10 => Entry(0x2000, 0xfc00, HAnd, D84, R9, false, false)
    case 11 => Entry(0x2400, 0xfc00, HXor, D84, R9, false, false)
    case 12 => Entry(0x2800, 0xfc00, HOr, D84, R9, false, false)
    case 13 => Entry(0x2c00, 0xfc00, HMov, D84, R9, false, false)
    case 14 => Entry(0x3000, 0xf000, HCpi, D74, NoR, true, false)
    case 15 => Entry(0x4000, 0xe000, HCpi, D74, NoR, true, false)
    case 16 => Entry(0x6000, 0xf000, HOri, D74, NoR, true, false)
    case 17 => Entry(0x7000, 0xf000, HAndi, D74, NoR, true, false)
    case 18 => Entry(0x8000, 0xd200, HLdyz, D84, NoR, false, false)
    case 19 => Entry(0x8200, 0xd200, HStyz, D84, NoR, false, false)
    case 20 => Entry(0x9000, 0xfe0f, HLds, D84, NoR, false, true)
    case 21 => Entry(0x9001, 0xfe07, HLdyz, D84, NoR, false, false)
    case 22 => Entry(0x9002, 0xfe07, HLdyz, D84, NoR, false, false)
    case 23 => Entry(0x9004, 0xfe0c, HElpmz, D84, NoR, false, false)
    case 24 => Entry(0x900c, 0xfe0e, HLdx, D84, NoR, false, false)
    case 25 => Entry(0x900e, 0xfe0f, HLdx, D84, NoR, false, false)
    case 26 => Entry(0x900f, 0xfe0f, HPop, D84, NoR, false, false)
    case 27 => Entry(0x9200, 0xfe0f, HSts, D84, NoR, false, true)
    case 28 => Entry(0x9201, 0xfe07, HStyz, D84, NoR, false, false)
    case 29 => Entry(0x9202, 0xfe07, HStyz, D84, NoR, false, false)
    case 30 => Entry(0x9204, 0xfe0c, HXch, D84, NoR, false, false)
    case 31 => Entry(0x920c, 0xfe0e, HStx, D84, NoR, false, false)
    case 32 => Entry(0x920e, 0xfe0f, HStx, D84, NoR, false, false)
    case 33 => Entry(0x920f, 0xfe0f, HPush, D84, NoR, false, false)
    case 34 => Entry(0x9400, 0xfe0f, HCom, D84, NoR, false, false)
    case 35 => Entry(0x9401, 0xfe0f, HNeg, D84, NoR, false, false)
    case 36 => Entry(0x9402, 0xfe0f, HSwap, D84, NoR, false, false)
    case 37 => Entry(0x9403, 0xfe0f, HInc, D84, NoR, false, false)
    case 38 => Entry(0x9405, 0xfe0f, HAsr, D84, NoR, false, false)
    case 39 => Entry(0x9406, 0xfe0f, HLsr, D84, NoR, false, false)
    case 40 => Entry(0x9407, 0xfe0f, HRor, D84, NoR, false, false)
    case 41 => Entry(0x9408, 0xff0f, HBclrset, D64, NoR, false, false)
    case 42 => Entry(0x940a, 0xfe0f, HDec, D84, NoR, false, false)
    case 43 => Entry(0x940b, 0xff0f, HDes, D74, NoR, false, false)
    case 44 => Entry(0x940c, 0xfe0e, HJmp, NoD, NoR, false, true)
    case 45 => Entry(0x940e, 0xfe0e, HCall, NoD, NoR, false, true)
    case 46 => Entry(0x9508, 0xffff, HRet, NoD, NoR, false, false)
    case 47 => Entry(0x9409, 0xfeef, HEicalljump, NoD, NoR, false, false)
    case 48 => Entry(0x9518, 0xffff, HReti, NoD, NoR, false, false)
    case 49 => Entry(0x9588, 0xffff, HUnimp, NoD, NoR, false, false)
    case 50 => Entry(0x9598, 0xffff, HUnimp, NoD, NoR, false, false)
    case 51 => Entry(0x95a8, 0xffff, HUnimp, NoD, NoR, false, false)
    case 52 => Entry(0x95c8, 0xffef, HElpm, NoD, NoR, false, false)
    case 53 => Entry(0x95e8, 0xffff, HUnimp, NoD, NoR, false, false)
    case 54 => Entry(0x95f8, 0xffff, HUnimp, NoD, NoR, false, false)
    case 55 => Entry(0x9600, 0xff00, HAdiw, NoD, NoR, false, false)
    case 56 => Entry(0x9700, 0xff00, HSbiw, NoD, NoR, false, false)
    case 57 => Entry(0x9800, 0xfd00, HCbisbi, NoD, R20, false, false)
    case 58 => Entry(0x9900, 0xfd00, HSbics, NoD, R20, false, false)
    case 59 => Entry(0x9c00, 0xfc00, HMul, D84, R9, false, false)
    case 60 => Entry(0xb000, 0xf800, HIn, D84, NoR, false, false)
    case 61 => Entry(0xb800, 0xf800, HOut, D84, NoR, false, false)
    case 62 => Entry(0xc000, 0xe000, HRcalljmp, NoD, NoR, false, false)
    case 63 => Entry(0xe000, 0xf000, HLdi, D74, NoR, true, false)
    case 64 => Entry(0xf000, 0xf800, HBrb, NoD, R20, false, false)
    case 65 => Entry(0xf800, 0xfe08, HBld, D84, R20, false, false)
    case 66 => Entry(0xfa00, 0xfe08, HBst, D84, R20, false, false)
    case _ => Entry(0xfc00, 0xfc08, HSbrcs, D84, R20, false, false)
  }

  const TABLE: seq<Entry> := seq(ROWS, k requires 0 <= k < ROWS => Row(k))

  predicate Matches(e: Entry, w: bv16) {
    w & e.mask == e.pattern
  }

  datatype Option<+T> = None | Some(value: T)

  /** First-match search through a table. */
  function Lookup(table: seq<Entry>, w: bv16): (e: Option<Entry>) {
    if table == [] then None
    else if Matches(table[0], w) then Some(table[0])
    else Lookup(table[1..], w)
  }

  /** How each handler expects its operands to be laid out. */
  function Layout(h: Handler): (l: (DForm, RForm, bool, bool)) {
    match h
    case HMovw | HMuls => (D74, R30, false, false)
    case HMulsu | HFmul | HFmulsu => (D64, R20, false, false)
    case HCpc | HAdc | HCpse | HAnd | HXor | HOr | HMov | HMul => (D84, R9, false, false)
    case HCpi | HOri | HAndi | HLdi => (D74, NoR, true, false)
    case HLds | HSts => (D84, NoR, false, true)
    case HBclrset => (D64, NoR, false, false)
    case HDes => (D74, NoR, false, false)
    case HJmp | HCall => (NoD, NoR, false, true)
    case HNop | HRet | HReti | HEicalljump | HUnimp | HElpm | HAdiw | HSbiw | HRcalljmp => (NoD, NoR, false, false)
    case HCbisbi | HSbics | HBrb => (NoD, R20, false, false)
    case HBld | HBst | HSbrcs => (D84, R20, false, false)
    case _ => (D84, NoR, false, false)
  }

  /** An entry whose operand flags are those its handler relies on. */
  predicate WellLaid(e: Entry) {
    var (d, r, k, imm16) := Layout(e.code);
    e.d == d && e.r == r && e.k == k && e.imm16 == imm16
  }

  datatype LogicOp = AndOp | OrOp | XorOp
  datatype ShiftOp = Asr | Lsr | Ror
  datatype Pointer = PtrX | PtrY | PtrZ
  datatype Mode = Disp(q: small) | PostInc | PreDec
  datatype XchOp = Exchange | SetBits | ClearBits | ToggleBits

  /** A decoded instruction. */
  datatype Insn =
    | Nop
    | Unimplemented
    | Movw(p: pair, from: pair)
    | Mul(signedD: bool, signedR: bool, fractional: bool, d: reg, r: reg)
    | Add(d: reg, r: reg, carry: bool)                   // ADD, ADC
    | Sub(d: reg, r: reg, carry: bool, store: bool)      // CP, CPC, SUB, SBC
    | SubImm(d: reg, k: byte, carry: bool, store: bool)  // CPI, SUBI, SBCI
    | Logic(op: LogicOp, d: reg, r: reg)
    | LogicImm(op: LogicOp, d: reg, k: byte)
    | Mov(d: reg, r: reg)
    | Ldi(d: reg, k: byte)
    | Com(d: reg)
    | Neg(d: reg)
    | Swap(d: reg)
    | Inc(d: reg)
    | Dec(d: reg)
    | Shift(shift: ShiftOp, d: reg)
    | Adiw(p: pair, q: small)
    | Sbiw(p: pair, q: small)
    | LdSt(ptr: Pointer, mode: Mode, d: reg, store: bool)
    | Lds(d: reg, addr: word)
    | Sts(d: reg, addr: word)
    | Lpm(d: reg, ext: bool, inc: bool)                  // LPM, ELPM in all forms
    | Xch(xop: XchOp, d: reg)                            // XCH, LAS, LAC, LAT
    | Pop(d: reg)
    | Push(d: reg)
    | In(d: reg, port: ioport)
    | Out(d: reg, port: ioport)
    | IoBit(low: lowport, b: bitno, value: bool)           // CBI, SBI
    | SetFlag(b: bitno, value: bool)                     // BCLR, BSET
    | Bld(d: reg, b: bitno)
    | Bst(d: reg, b: bitno)
    | SkipEq(d: reg, r: reg)                             // CPSE
    | SkipIo(low: lowport, b: bitno, value: bool)          // SBIC, SBIS
    | SkipBit(d: reg, b: bitno, value: bool)             // SBRC, SBRS
    | Branch(b: bitno, value: bool, offset: int)         // BRBC, BRBS
    | Jmp(high: byte, addr: word)
    | Call(high: byte, addr: word)
    | RelJump(offset: int, call: bool)                   // RJMP, RCALL
    | IndJump(ext: bool, call: bool)                     // IJMP, ICALL, EIJMP, EICALL
    | Ret(reti: bool)
    | Des(round: byte)

  /** Length of an instruction in words. */
  function Size(i: Insn): (n: nat)
    ensures 1 <= n <= 2
  {
    if i.Lds? || i.Sts? || i.Jmp? || i.Call? then 2 else 1
  }

  function D84Of(w: bv16): reg { Field(w, 8, 4) }
  function D74Of(w: bv16): reg { 16 + Field(w, 7, 4) }
  function D64Of(w: bv16): reg { 16 + Field(w, 6, 4) }
  function R9Of(w: bv16): reg { 16 * Field(w, 9, 9) + Field(w, 3, 0) }
  function K8Of(w: bv16): byte { 16 * Field(w, 11, 8) + Field(w, 3, 0) }
  function K6Of(w: bv16): small { 16 * Field(w, 7, 6) + Field(w, 3, 0) }
  function PairOf(w: bv16): pair { 24 + 2 * Field(w, 5, 4) }
  function PortOf(w: bv16): ioport { 16 * Field(w, 10, 9) + Field(w, 3, 0) }
  function BitOf(w: bv16): bitno { Field(w, 2, 0) }
  function HighOf(w: bv16): byte { 2 * Field(w, 8, 4) + Field(w, 0, 0) }

  function ModeOf(m: nat, q: small): Mode {
    match m
    case 1 => PostInc
    case 2 => PreDec
    case _ => Disp(q)
  }

  function YzMode(w: bv16): Mode {
    if Field(w, 12, 12) == 0
    then Disp(32 * Field(w, 13, 13) + 8 * Field(w, 11, 10) + Field(w, 2, 0))
    else ModeOf(Field(w, 1, 0), 0)
  }

  function YzPointer(w: bv16): Pointer {
    if Field(w, 3, 3) == 1 then PtrY else PtrZ
  }

  function SignExtend(x: int, half: int): (r: int)
    requires 0 <= x < 2 * half
    ensures -half <= r < half
  {
    if x >= half then x - 2 * half else x
  }

  function XchOpOf(w: bv16): XchOp {
    match Field(w, 1, 0)
    case 0 => Exchange
    case 1 => SetBits
    case 2 => ClearBits
    case _ => ToggleBits
  }

  function R30Of(w: bv16): reg { 16 + Field(w, 3, 0) }
  function R20Of(w: bv16): reg { 16 + BitOf(w) }
  function EvenD(w: bv16): pair { 2 * Field(w, 7, 4) }
  function EvenR(w: bv16): pair { 2 * Field(w, 3, 0) }
  function LowPortOf(w: bv16): lowport { Field(w, 7, 3) }
  function FlagOf(w: bv16): bitno { Field(w, 6, 4) }
  function RoundOf(w: bv16): byte { Field(w, 7, 4) }
  function BranchOffset(w: bv16): int { SignExtend(Field(w, 9, 3), 64) }
  function JumpOffset(w: bv16): int { SignExtend(Field(w, 11, 0), 2048) }

  /** What word w means to handler h; imm is the word that follows. */
  function Decode(h: Handler, w: bv16, imm: word): (i: Insn)
  {
    match h
    case HNop => Nop
    case HUnimp => Unimplemented
    case HMovw => Movw(EvenD(w), EvenR(w))
    case HMul => Mul(false, false, false, D84Of(w), R9Of(w))
    case HMuls => Mul(true, true, false, D74Of(w), R30Of(w))
    case HMulsu => Mul(true, false, false, D64Of(w), R20Of(w))
    case HFmul => Mul(false, false, true, D64Of(w), R20Of(w))
    case HFmulsu => Mul(true, Field(w, 3, 3) == 0, true, D64Of(w), R20Of(w))
    case HAdc => Add(D84Of(w), R9Of(w), Field(w, 12, 12) == 1)
    case HCpc => Sub(D84Of(w), R9Of(w), Field(w, 12, 12) == 0, Field(w, 11, 10) != 1)
    case HCpi => SubImm(D74Of(w), K8Of(w), Field(w, 12, 12) == 0, Field(w, 14, 13) == 2)
    case HAnd => Logic(AndOp, D84Of(w), R9Of(w))
    case HOr => Logic(OrOp, D84Of(w), R9Of(w))
    case HXor => Logic(XorOp, D84Of(w), R9Of(w))
    case HAndi => LogicImm(AndOp, D74Of(w), K8Of(w))
    case HOri => LogicImm(OrOp, D74Of(w), K8Of(w))
    case HMov => Mov(D84Of(w), R9Of(w))
    case HLdi => Ldi(D74Of(w), K8Of(w))
    case HCom => Com(D84Of(w))
    case HNeg => Neg(D84Of(w))
    case HSwap => Swap(D84Of(w))
    case HInc => Inc(D84Of(w))
    case HDec => Dec(D84Of(w))
    case HAsr => Shift(Asr, D84Of(w))
    case HLsr => Shift(Lsr, D84Of(w))
    case HRor => Shift(Ror, D84Of(w))
    case HAdiw => Adiw(PairOf(w), K6Of(w))
    case HSbiw => Sbiw(PairOf(w), K6Of(w))
    case HLdx => LdSt(PtrX, ModeOf(Field(w, 1, 0), 0), D84Of(w), false)
    case HStx => LdSt(PtrX, ModeOf(Field(w, 1, 0), 0), D84Of(w), true)
    case HLdyz => LdSt(YzPointer(w), YzMode(w), D84Of(w), false)
    case HStyz => LdSt(YzPointer(w), YzMode(w), D84Of(w), true)
    case HLds => Lds(D84Of(w), imm)
    case HSts => Sts(D84Of(w), imm)
    case HElpm => Lpm(0, Field(w, 4, 4) == 1, false)
    case HElpmz => Lpm(D84Of(w), Field(w, 1, 1) == 1, Field(w, 0, 0) == 1)
    case HXch => Xch(XchOpOf(w), D84Of(w))
    case HPop => Pop(D84Of(w))
    case HPush => Push(D84Of(w))
    case HIn => In(D84Of(w), PortOf(w))
    case HOut => Out(D84Of(w), PortOf(w))
    case HCbisbi => IoBit(LowPortOf(w), BitOf(w), Field(w, 9, 9) == 1)
    case HBclrset => SetFlag(FlagOf(w), Field(w, 7, 7) == 0)
    case HBld => Bld(D84Of(w), BitOf(w))
    case HBst => Bst(D84Of(w), BitOf(w))
    case HCpse => SkipEq(D84Of(w), R9Of(w))
    case HSbics => SkipIo(LowPortOf(w), BitOf(w), Field(w, 9, 9) == 1)
    case HSbrcs => SkipBit(D84Of(w), BitOf(w), Field(w, 9, 9) == 1)
    case HBrb => Branch(BitOf(w), Field(w, 10, 10) == 0, BranchOffset(w))
    case HJmp => Jmp(HighOf(w), imm)
    case HCall => Call(HighOf(w), imm)
    case HRcalljmp => RelJump(JumpOffset(w), Field(w, 12, 12) == 1)
    case HEicalljump => IndJump(Field(w, 4, 4) == 1, Field(w, 8, 8) == 1)
    case HRet => Ret(false)
    case HReti => Ret(true)
    case HDes => Des(RoundOf(w))
  }
}
