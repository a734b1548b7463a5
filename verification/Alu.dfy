/**
 What each arithmetic instruction leaves in the status register, said in terms
 of the numbers involved rather than of their bits: C is a carry or borrow out
 of the byte, V a signed result that does not fit, S the sign of the exact
 result, H a carry or borrow out of the low nibble.
 */
module Alu {
  import opened Bytes
  import opened Isa

  /** The four flags that describe a result. */
  function ResultFlags(f: Bits, z: bool, n: bool, v: bool, s: bool): (r: Bits) {
    Assign(Assign(Assign(Assign(f, Z, z), N, n), V, v), S, s)
  }

  /** a + b + c. */
  function AddFlags(f: Bits, a: byte, b: byte, c: nat): (r: Bits)
    requires c <= 1
  {
    var sum := a + b + c;
    var exact := Signed(a) + Signed(b) + c;
    var g := ResultFlags(f, sum % 256 == 0, sum % 256 >= 128, !(-128 <= exact < 128), exact < 0);
    Assign(Assign(g, C, sum >= 256), H, a % 16 + b % 16 + c >= 16)
  }

  /** a - b - c; Z can only be set if zIn allows it. */
  function SubFlags(f: Bits, a: byte, b: byte, c: nat, zIn: bool): (r: Bits)
    requires c <= 1
  {
    var diff := a - b - c;
    var exact := Signed(a) - Signed(b) - c;
    var g := ResultFlags(f, zIn && diff % 256 == 0, diff % 256 >= 128, !(-128 <= exact < 128), exact < 0);
    Assign(Assign(g, C, diff < 0), H, a % 16 - b % 16 - c < 0)
  }

  /** a + delta without touching C and H: INC and DEC. */
  function StepFlags(f: Bits, a: byte, delta: int): (r: Bits)
    requires -1 <= delta <= 1
  {
    var exact := Signed(a) + delta;
    ResultFlags(f, (a + delta) % 256 == 0, (a + delta) % 256 >= 128, !(-128 <= exact < 128), exact < 0)
  }

  function SignedWord(x: word): (r: int) {
    if x >= 0x8000 then x - 0x1_0000 else x
  }

  /** x + delta on a word: ADIW and SBIW. */
  function WideFlags(f: Bits, x: word, delta: int): (r: Bits)
    requires -64 < delta < 64
  {
    var sum := x + delta;
    var exact := SignedWord(x) + delta;
    var g := ResultFlags(f, sum % 0x1_0000 == 0, sum % 0x1_0000 >= 0x8000, !(-0x8000 <= exact < 0x8000), exact < 0);
    Assign(g, C, !(0 <= sum < 0x1_0000))
  }

  function LogicFlags(f: Bits, r: byte): (g: Bits) {
    ResultFlags(f, r == 0, r >= 128, false, r >= 128)
  }

  /** A right shift giving r and shifting `out` into C. */
  function ShiftFlags(f: Bits, r: byte, out: bool): (g: Bits) {
    Assign(ResultFlags(f, r == 0, r >= 128, (r >= 128) != out, out), C, out)
  }

  /** The bit a shift brings in at the top. */
  predicate ShiftIn(op: ShiftOp, a: byte, c: bool) {
    match op
    case Asr => a >= 128
    case Lsr => false
    case Ror => c
  }

  function Shifted(op: ShiftOp, a: byte, c: bool): (r: byte) {
    a / 2 + 128 * Num(ShiftIn(op, a, c))
  }

  function Apply(op: LogicOp, a: byte, b: byte): (r: byte) {
    match op
    case AndOp => Pack(Unpack(a) & Unpack(b))
    case OrOp => Pack(Unpack(a) | Unpack(b))
    case XorOp => Pack(Unpack(a) ^ Unpack(b))
  }

  function Cleared(a: byte, b: byte): (r: byte) {
    Pack(Unpack(a) & !Unpack(b))
  }

  function ApplyXch(op: XchOp, cell: byte, rd: byte): (r: byte) {
    match op
    case Exchange => rd
    case SetBits => Apply(OrOp, cell, rd)
    case ClearBits => Cleared(cell, rd)
    case ToggleBits => Apply(XorOp, cell, rd)
  }

  function Product(signedD: bool, signedR: bool, a: byte, b: byte): (p: word) {
    ((if signedD then Signed(a) else a) * (if signedR then Signed(b) else b)) % 0x1_0000
  }

  function Swapped(a: byte): (r: byte) {
    a / 16 + 16 * (a % 16)
  }
}
