/**
 The opcodes of the AVR Instruction Set Manual (Atmel document 0856), written
 bit by bit as its tables have them.

 Nothing here comes from the decode table: `Opcode` goes from an instruction to
 its word, the emulator from a word to an instruction.  `Opcodes` proves that the
 two are inverse.
 */
module Assembler {
  import opened Isa

  const O := false
  const L := true

  /** Four bits, highest first, and a word of four times four. */
  datatype Nibble = X(b3: bool, b2: bool, b1: bool, b0: bool)
  datatype Quad = Quad(n3: Nibble, n2: Nibble, n1: Nibble, n0: Nibble)

  /** Bit k of a number. */
  predicate Bit(x: nat, k: nat)
    decreases k
  {
    if k == 0 then x % 2 == 1 else Bit(x / 2, k - 1)
  }

  /** The lowest four bits of a number. */
  function Nib(x: nat): (n: Nibble) {
    X(Bit(x, 3), Bit(x, 2), Bit(x, 1), Bit(x, 0))
  }

  function NibbleWord(n: Nibble): (w: bv16) {
    (if n.b3 then 8 else 0) | (if n.b2 then 4 else 0) | (if n.b1 then 2 else 0) | (if n.b0 then 1 else 0)
  }

  function WordOf(q: Quad): (w: bv16) {
    (NibbleWord(q.n3) << 12) | (NibbleWord(q.n2) << 8) | (NibbleWord(q.n1) << 4) | NibbleWord(q.n0)
  }

  /** oooo oord dddd rrrr, given the six opcode bits. */
  function TwoRegs(a: bool, b: bool, c: bool, d: bool, e: bool, f: bool, rd: reg, rr: reg): (q: Quad) {
    Quad(X(a, b, c, d), X(e, f, Bit(rr, 4), Bit(rd, 4)), Nib(rd), Nib(rr))
  }

  /** 1001 0abd dddd oooo. */
  function OneReg(a: bool, b: bool, rd: reg, op: Nibble): (q: Quad) {
    Quad(X(L, O, O, L), X(O, a, b, Bit(rd, 4)), Nib(rd), op)
  }

  /** oooo KKKK dddd KKKK, for r16 to r31. */
  function Immediate(op: Nibble, rd: reg, k: nat): (q: Option<Quad>) {
    if rd < 16 then None else Some(Quad(op, Nib(k / 16), Nib(rd), Nib(k)))
  }

  /** 0000 0011 addd brrr, for r16 to r23. */
  function Multiply(a: bool, b: bool, rd: reg, rr: reg): (q: Option<Quad>) {
    if !(16 <= rd < 24 && 16 <= rr < 24) then None
    else Some(Quad(X(O, O, O, O), X(O, O, L, L), X(a, Bit(rd, 2), Bit(rd, 1), Bit(rd, 0)),
                   X(b, Bit(rr, 2), Bit(rr, 1), Bit(rr, 0))))
  }

  /** 1001 10ab AAAA Abbb. */
  function PortBit(a: bool, b: bool, port: lowport, bit: bitno): (q: Quad) {
    Quad(X(L, O, O, L), X(L, O, a, b), X(Bit(port, 4), Bit(port, 3), Bit(port, 2), Bit(port, 1)),
         X(Bit(port, 0), Bit(bit, 2), Bit(bit, 1), Bit(bit, 0)))
  }

  /** 1111 1abd dddd 0bbb. */
  function RegBit(a: bool, b: bool, rd: reg, bit: bitno): (q: Quad) {
    Quad(X(L, L, L, L), X(L, a, b, Bit(rd, 4)), Nib(rd), X(O, Bit(bit, 2), Bit(bit, 1), Bit(bit, 0)))
  }

  /** The last four bits of LD and ST: the pointer and what happens to it. */
  function PointerOp(p: Pointer, m: Mode): (n: Nibble) {
    match p
    case PtrX => X(L, L, m.PreDec?, m.PostInc?)
    case PtrY => X(L, O, m.PreDec?, m.PostInc?)
    case PtrZ => X(O, O, m.PreDec?, m.PostInc?)
  }

  function LoadOrStore(p: Pointer, m: Mode, rd: reg, store: bool): (q: Option<Quad>) {
    if m.Disp? && !p.PtrX? then
      Some(Quad(X(L, O, Bit(m.q, 5), O), X(Bit(m.q, 4), Bit(m.q, 3), store, Bit(rd, 4)), Nib(rd),
                X(p.PtrY?, Bit(m.q, 2), Bit(m.q, 1), Bit(m.q, 0))))
    else if m.Disp? && m.q != 0 then None
    else Some(OneReg(O, store, rd, PointerOp(p, m)))
  }

  function XchNibble(op: XchOp): (n: Nibble) {
    match op
    case Exchange => X(O, L, O, O)
    case SetBits => X(O, L, O, L)
    case ClearBits => X(O, L, L, O)
    case ToggleBits => X(O, L, L, L)
  }

  /** The first word of an instruction, where the manual has one for these operands. */
  function Opcode(i: Insn): (q: Option<Quad>) {
    match i
    case Nop => Some(Quad(Nib(0), Nib(0), Nib(0), Nib(0)))
    case Unimplemented => None
    case Movw(p, from) => Some(Quad(Nib(0), Nib(1), Nib(p / 2), Nib(from / 2)))
    case Mul(sd, sr, fractional, d, r) =>
      if fractional then if sd || !sr then Multiply(sd, !sr, d, r) else None
      else if sd && sr then if d >= 16 && r >= 16 then Some(Quad(Nib(0), Nib(2), Nib(d), Nib(r))) else None
      else if sd then Multiply(O, O, d, r)
      else if sr then None
      else Some(TwoRegs(L, O, O, L, L, L, d, r))
    case Add(d, r, carry) => Some(TwoRegs(O, O, O, carry, L, L, d, r))
    case Sub(d, r, carry, store) => Some(TwoRegs(O, O, O, !carry, store, !store, d, r))
    case SubImm(d, k, carry, store) =>
      if store then Immediate(X(O, L, O, !carry), d, k) else if carry then None else Immediate(X(O, O, L, L), d, k)
    case Logic(op, d, r) => Some(TwoRegs(O, O, L, O, op.OrOp?, op.XorOp?, d, r))
    case LogicImm(op, d, k) => if op.XorOp? then None else Immediate(X(O, L, L, op.AndOp?), d, k)
    case Mov(d, r) => Some(TwoRegs(O, O, L, O, L, L, d, r))
    case Ldi(d, k) => Immediate(X(L, L, L, O), d, k)
    case Com(d) => Some(OneReg(L, O, d, X(O, O, O, O)))
    case Neg(d) => Some(OneReg(L, O, d, X(O, O, O, L)))
    case Swap(d) => Some(OneReg(L, O, d, X(O, O, L, O)))
    case Inc(d) => Some(OneReg(L, O, d, X(O, O, L, L)))
    case Dec(d) => Some(OneReg(L, O, d, X(L, O, L, O)))
    case Shift(op, d) => Some(OneReg(L, O, d, X(O, L, !op.Asr?, !op.Lsr?)))
    case Adiw(p, k) => WordImmediate(O, p, k)
    case Sbiw(p, k) => WordImmediate(L, p, k)
    case LdSt(p, m, d, store) => LoadOrStore(p, m, d, store)
    case Lds(d, _) => Some(OneReg(O, O, d, X(O, O, O, O)))
    case Sts(d, _) => Some(OneReg(O, L, d, X(O, O, O, O)))
    case Lpm(d, ext, inc) => Some(OneReg(O, O, d, X(O, L, ext, inc)))
    case Xch(op, d) => Some(OneReg(O, L, d, XchNibble(op)))
    case Pop(d) => Some(OneReg(O, O, d, X(L, L, L, L)))
    case Push(d) => Some(OneReg(O, L, d, X(L, L, L, L)))
    case In(d, port) => Some(Quad(X(L, O, L, L), X(O, Bit(port, 5), Bit(port, 4), Bit(d, 4)), Nib(d), Nib(port)))
    case Out(d, port) => Some(Quad(X(L, O, L, L), X(L, Bit(port, 5), Bit(port, 4), Bit(d, 4)), Nib(d), Nib(port)))
    case IoBit(port, b, value) => Some(PortBit(value, O, port, b))
    case SkipIo(port, b, value) => Some(PortBit(value, L, port, b))
    case SetFlag(b, value) =>
      Some(Quad(Nib(9), Nib(4), X(!value, Bit(b, 2), Bit(b, 1), Bit(b, 0)), Nib(8)))
    case Bld(d, b) => Some(RegBit(O, O, d, b))
    case Bst(d, b) => Some(RegBit(O, L, d, b))
    case SkipBit(d, b, value) => Some(RegBit(L, value, d, b))
    case SkipEq(d, r) => Some(TwoRegs(O, O, O, L, O, O, d, r))
    case Branch(b, value, offset) =>
      if !(-64 <= offset < 64) then None
      else
        var k := offset % 128;
        Some(Quad(Nib(15), X(O, !value, Bit(k, 6), Bit(k, 5)), X(Bit(k, 4), Bit(k, 3), Bit(k, 2), Bit(k, 1)),
                  X(Bit(k, 0), Bit(b, 2), Bit(b, 1), Bit(b, 0))))
    case Jmp(high, _) => LongJump(O, high)
    case Call(high, _) => LongJump(L, high)
    case RelJump(offset, call) =>
      if !(-2048 <= offset < 2048) then None
      else
        var k := offset % 4096;
        Some(Quad(X(L, L, O, call), Nib(k / 256), Nib(k / 16), Nib(k)))
    case IndJump(ext, call) => Some(Quad(Nib(9), X(O, L, O, call), X(O, O, O, ext), Nib(9)))
    case Ret(reti) => Some(Quad(Nib(9), Nib(5), X(O, O, O, reti), Nib(8)))
    case Des(round) => if round < 16 then Some(Quad(Nib(9), Nib(4), Nib(round), Nib(11))) else None
  }

  /** 1001 011o KKdd KKKK, for r24, r26, r28 and r30. */
  function WordImmediate(op: bool, p: pair, k: small): (q: Option<Quad>) {
    if p < 24 then None
    else Some(Quad(Nib(9), X(O, L, L, op), X(Bit(k, 5), Bit(k, 4), Bit(p, 2), Bit(p, 1)), Nib(k)))
  }

  /** 1001 010k kkkk 11ok, for the six highest bits of a 22-bit address. */
  function LongJump(op: bool, high: nat): (q: Option<Quad>) {
    if high >= 64 then None
    else Some(OneReg(L, O, high / 2, X(L, L, op, Bit(high, 0))))
  }

  /** LPM and ELPM without operands, which load r0, and the instructions the emulator refuses: SLEEP, BREAK, WDR, SPM
      and SPM Z+. */
  predicate Alias(i: Insn, w: bv16) {
    || (i == Lpm(0, false, false) && w == 0x95c8)
    || (i == Lpm(0, true, false) && w == 0x95d8)
    || (i == Unimplemented && (w == 0x9588 || w == 0x9598 || w == 0x95a8 || w == 0x95e8 || w == 0x95f8))
  }

  /** w is the first word of instruction i. */
  predicate Spells(i: Insn, w: bv16) {
    Alias(i, w) || (Opcode(i).Some? && w == WordOf(Opcode(i).value))
  }

  /** The second word, of an instruction that has one. */
  function Operand(i: Insn): (x: word) {
    match i
    case Lds(_, addr) => addr
    case Sts(_, addr) => addr
    case Jmp(_, addr) => addr
    case Call(_, addr) => addr
    case _ => 0
  }

  function NumberWord(x: word): (w: bv16) {
    WordOf(Quad(Nib(x / 0x1000), Nib(x / 0x100), Nib(x / 0x10), Nib(x)))
  }

  /** The words of an instruction, or none where the manual has none for these operands. */
  function Encode(i: Insn): (ws: seq<bv16>) {
    if Opcode(i).None? then []
    else [WordOf(Opcode(i).value)] + if Size(i) == 2 then [NumberWord(Operand(i))] else []
  }
}
