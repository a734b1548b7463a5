/**
 S = N xor V over whole runs.

 The manual defines S as N xor V, but each handler computes the three flags by
 its own formulas, and some (INC, DEC, COM, NEG) patch them.  The relation
 holds throughout every run that starts with it and neither stores into SREG
 nor uses BSET or BCLR on one of the three flags.
 */
module SignFlag {
  import opened Bytes
  import opened Isa
  import opened Alu
  import opened FlagMasks
  import opened Cpu
  import opened Frame

  predicate SignBits(f: Bits) {
    Has(f, S) == (Has(f, N) != Has(f, V))
  }

  predicate SignOk(m: Memory) {
    SignBits(Flags(m))
  }

  lemma ResultSign(f: Bits, z: bool, n: bool, v: bool, s: bool)
    ensures SignBits(ResultFlags(f, z, n, v, s)) == (s == (n != v))
  {
  }

  /** C, Z, H, T and I have no part in the relation. */
  lemma OtherFlag(f: Bits, m: Bits, b: bool)
    requires m & (N | V | S) == 0
    ensures SignBits(Assign(f, m, b)) == SignBits(f)
  {
  }

  lemma SumSign(f: Bits, z: bool, n: bool, v: bool, s: bool, c: bool, h: bool)
    requires s == (n != v)
    ensures SignBits(Assign(Assign(ResultFlags(f, z, n, v, s), C, c), H, h))
  {
    hide SignBits, ResultFlags, Assign;
    ResultSign(f, z, n, v, s);
    OtherFlag(ResultFlags(f, z, n, v, s), C, c);
    OtherFlag(Assign(ResultFlags(f, z, n, v, s), C, c), H, h);
  }

  lemma AddSign(f: Bits, a: byte, b: byte, c: nat)
    requires c <= 1
    ensures SignBits(AddFlags(f, a, b, c))
  {
    hide SignBits, ResultFlags, Assign, Signed, Bit7, Bit3;
    var sum, exact := a + b + c, Signed(a) + Signed(b) + c;
    AddFormulas(sum % 256, a, b, c);
    SumSign(f, sum % 256 == 0, sum % 256 >= 128, !(-128 <= exact < 128), exact < 0, sum >= 256,
            a % 16 + b % 16 + c >= 16);
  }

  lemma SubSign(f: Bits, a: byte, b: byte, c: nat, zIn: bool)
    requires c <= 1
    ensures SignBits(SubFlags(f, a, b, c, zIn))
  {
    hide SignBits, ResultFlags, Assign, Signed, Bit7, Bit3;
    var diff, exact := a - b - c, Signed(a) - Signed(b) - c;
    SubFormulas(diff % 256, a, b, c);
    SumSign(f, zIn && diff % 256 == 0, diff % 256 >= 128, !(-128 <= exact < 128), exact < 0, diff < 0,
            a % 16 - b % 16 - c < 0);
  }

  lemma StepSign(f: Bits, a: byte, delta: int)
    requires -1 <= delta <= 1
    ensures SignBits(StepFlags(f, a, delta))
  {
    hide SignBits, ResultFlags;
    var r, exact := (a + delta) % 256, Signed(a) + delta;
    ResultSign(f, r == 0, r >= 128, !(-128 <= exact < 128), exact < 0);
  }

  lemma WideSign(f: Bits, x: word, delta: int)
    requires -64 < delta < 64
    ensures SignBits(WideFlags(f, x, delta))
  {
    hide SignBits, ResultFlags, Assign;
    var r, exact := (x + delta) % 0x1_0000, SignedWord(x) + delta;
    var g := ResultFlags(f, r == 0, r >= 0x8000, !(-0x8000 <= exact < 0x8000), exact < 0);
    ResultSign(f, r == 0, r >= 0x8000, !(-0x8000 <= exact < 0x8000), exact < 0);
    OtherFlag(g, C, !(0 <= x + delta < 0x1_0000));
  }

  lemma LogicSign(f: Bits, r: byte)
    ensures SignBits(LogicFlags(f, r)) && SignBits(Assign(LogicFlags(f, r), C, true))
  {
    hide SignBits, ResultFlags, Assign;
    ResultSign(f, r == 0, r >= 128, false, r >= 128);
    OtherFlag(LogicFlags(f, r), C, true);
  }

  lemma ShiftSign(f: Bits, r: byte, out: bool)
    ensures SignBits(ShiftFlags(f, r, out))
  {
    hide SignBits, ResultFlags, Assign;
    ResultSign(f, r == 0, r >= 128, (r >= 128) != out, out);
    OtherFlag(ResultFlags(f, r == 0, r >= 128, (r >= 128) != out, out), C, out);
  }

  /** BSET or BCLR on N, V or S, or a store whose target is SREG itself. */
  predicate TouchesSign(i: Insn, s: State) {
    || (i.SetFlag? && 2 <= i.b <= 4)
    || (!OnlyAlu(i) && !i.Ret? && MayWrite(i, s, SREG))
  }

  lemma SetFlagSign(f: Bits, b: bitno, value: bool)
    requires !(2 <= b <= 4) && SignBits(f)
    ensures SignBits(Assign(f, BitAt(b), value))
  {
  }

  lemma AddMemSign(m: Memory, d: reg, b: byte, c: nat)
    requires c <= 1
    ensures SignOk(AddMem(m, d, b, c))
  {
    hide SignBits, AddFlags;
    AddSign(Flags(m), m[d], b, c);
    UnpackPack(AddFlags(Flags(m), m[d], b, c));
  }

  lemma SubMemSign(m: Memory, d: reg, b: byte, c: nat, store: bool, zIn: bool)
    requires c <= 1
    ensures SignOk(SubMem(m, d, b, c, store, zIn))
  {
    hide SignBits, SubFlags;
    SubSign(Flags(m), m[d], b, c, zIn);
    UnpackPack(SubFlags(Flags(m), m[d], b, c, zIn));
  }

  lemma StepMemSign(m: Memory, d: reg, delta: int)
    requires -1 <= delta <= 1
    ensures SignOk(StepMem(m, d, delta))
  {
    hide SignBits, StepFlags;
    StepSign(Flags(m), m[d], delta);
    UnpackPack(StepFlags(Flags(m), m[d], delta));
  }

  lemma LogicMemSign(m: Memory, d: reg, r: byte)
    ensures SignOk(LogicMem(m, d, r))
  {
    hide SignBits, LogicFlags;
    LogicSign(Flags(m), r);
    UnpackPack(LogicFlags(Flags(m), r));
  }

  lemma ShiftMemSign(m: Memory, op: ShiftOp, d: reg)
    ensures SignOk(ShiftMem(m, op, d))
  {
    hide SignBits, ShiftFlags;
    var x := Shifted(op, m[d], Has(Flags(m), C));
    ShiftSign(Flags(m), x, m[d] % 2 == 1);
    UnpackPack(ShiftFlags(Flags(m), x, m[d] % 2 == 1));
  }

  lemma WideMemSign(m: Memory, d: pair, delta: int)
    requires -64 < delta < 64
    ensures SignOk(WideMem(m, d, delta))
  {
    hide SignBits, WideFlags;
    WideSign(Flags(m), WordAt(m, d), delta);
    UnpackPack(WideFlags(Flags(m), WordAt(m, d), delta));
  }

  /** Instructions with arithmetic flags establish the relation. */
  predicate SetsSign(i: Insn) {
    SetsSignTwo(i) || SetsSignOne(i)
  }

  predicate SetsSignTwo(i: Insn) {
    i.Add? || i.Sub? || i.SubImm? || i.Logic? || i.LogicImm?
  }

  predicate SetsSignOne(i: Insn) {
    i.Com? || i.Neg? || i.Inc? || i.Dec? || i.Shift? || i.Adiw? || i.Sbiw?
  }

  lemma TwoSetsSign(rom: Rom, i: Insn, m: Memory)
    requires SetsSignTwo(i)
    ensures SignOk(AluMem(rom, i, m))
  {
    hide SignOk, AddMem, SubMem, StepMem, LogicMem, ShiftMem, WideMem, MulMem, DesMem, SetFlags, Apply, Has, Flags;
    if i.Add? {
      AddMemSign(m, i.d, m[i.r], Num(i.carry && Has(Flags(m), C)));
    } else if i.Sub? {
      SubMemSign(m, i.d, m[i.r], Num(i.carry && Has(Flags(m), C)), i.store, Has(Flags(m), Z));
    } else if i.SubImm? {
      SubMemSign(m, i.d, i.k, Num(i.carry && Has(Flags(m), C)), i.store, true);
    } else if i.Logic? {
      LogicMemSign(m, i.d, Apply(i.op, m[i.d], m[i.r]));
    } else {
      LogicMemSign(m, i.d, Apply(i.op, m[i.d], i.k));
    }
  }

  lemma OneSetsSign(rom: Rom, i: Insn, m: Memory)
    requires SetsSignOne(i)
    ensures SignOk(AluMem(rom, i, m))
  {
    hide SignOk, AddMem, SubMem, StepMem, LogicMem, ShiftMem, WideMem, MulMem, DesMem, Apply, Has, Flags;
    if i.Com? {
      ComSign(rom, m, i.d);
    } else if i.Neg? {
      NegSign(rom, m, i.d);
    } else if i.Inc? {
      StepMemSign(m, i.d, 1);
    } else if i.Dec? {
      StepMemSign(m, i.d, -1);
    } else if i.Shift? {
      ShiftMemSign(m, i.shift, i.d);
    } else if i.Adiw? {
      WideMemSign(m, i.p, i.q);
    } else {
      WideMemSign(m, i.p, 0 - i.q as int);
    }
  }

  lemma ArithSetsSign(rom: Rom, i: Insn, m: Memory)
    requires SetsSign(i)
    ensures SignOk(AluMem(rom, i, m))
  {
    hide SignOk, AluMem;
    if SetsSignTwo(i) {
      TwoSetsSign(rom, i, m);
    } else {
      OneSetsSign(rom, i, m);
    }
  }

  lemma ComSign(rom: Rom, m: Memory, d: reg)
    ensures SignOk(AluMem(rom, Com(d), m))
  {
    hide SignBits, LogicFlags, Assign;
    LogicSign(Flags(m), 255 - m[d]);
    UnpackPack(Assign(LogicFlags(Flags(m), 255 - m[d]), C, true));
  }

  lemma NegSign(rom: Rom, m: Memory, d: reg)
    ensures SignOk(AluMem(rom, Neg(d), m))
  {
    hide SignBits, SubFlags;
    SubSign(Flags(m), 0, m[d], 0, true);
    UnpackPack(SubFlags(Flags(m), 0, m[d], 0, true));
  }

  lemma MulKeepsSign(m: Memory, p: word, fractional: bool)
    requires SignOk(m)
    ensures SignOk(MulMem(m, p, fractional))
  {
    hide SignBits, Assign;
    var x: word := if fractional then 2 * (p as int) % 0x1_0000 else p;
    var f := Flags(m);
    OtherFlag(f, C, p >= 0x8000);
    OtherFlag(Assign(f, C, p >= 0x8000), Z, x == 0);
    UnpackPack(Assign(Assign(f, C, p >= 0x8000), Z, x == 0));
  }

  lemma SetSign(m: Memory, f: Bits)
    requires SignBits(f)
    ensures SignOk(SetFlags(m, f))
  {
    hide SignBits;
    UnpackPack(f);
  }

  lemma BstKeepsSign(rom: Rom, m: Memory, d: reg, b: bitno)
    requires SignOk(m)
    ensures SignOk(AluMem(rom, Bst(d, b), m))
  {
    hide SignBits, Assign, BitAt, Has, SetFlags, Flags, Unpack;
    var x := Has(Unpack(m[d]), BitAt(b));
    OtherFlag(Flags(m), T, x);
    SetSign(m, Assign(Flags(m), T, x));
  }

  lemma BsetKeepsSign(rom: Rom, m: Memory, b: bitno, value: bool)
    requires SignOk(m) && !(2 <= b <= 4)
    ensures SignOk(AluMem(rom, SetFlag(b, value), m))
  {
    hide SignBits, Assign, BitAt, SetFlags, Flags;
    SetFlagSign(Flags(m), b, value);
    SetSign(m, Assign(Flags(m), BitAt(b), value));
  }

  lemma AluKeepsSign(rom: Rom, i: Insn, m: Memory)
    requires SignOk(m) && OnlyAlu(i) && !(i.SetFlag? && 2 <= i.b <= 4)
    ensures SignOk(AluMem(rom, i, m))
  {
    hide SignBits, AluMem, Unpack, Product;
    if SetsSign(i) {
      ArithSetsSign(rom, i, m);
    } else if i.Mul? {
      MulKeepsSign(m, Product(i.signedD, i.signedR, m[i.d], m[i.r]), i.fractional);
      MulIs(rom, i, m);
    } else if i.Bst? {
      BstKeepsSign(rom, m, i.d, i.b);
    } else if i.SetFlag? {
      BsetKeepsSign(rom, m, i.b, i.value);
    } else {
      PlainLeavesSreg(i);
      AluFrame(rom, i, m, SREG);
    }
  }

  lemma MulIs(rom: Rom, i: Insn, m: Memory)
    requires i.Mul?
    ensures AluMem(rom, i, m) == MulMem(m, Product(i.signedD, i.signedR, m[i.d], m[i.r]), i.fractional)
  {
  }

  lemma PlainLeavesSreg(i: Insn)
    requires OnlyAlu(i) && !SetsSign(i) && !i.Mul? && !i.Bst? && !i.SetFlag?
    ensures !AluMayWrite(i, SREG)
  {
  }

  lemma RetKeepsSign(rom: Rom, s: State, reti: bool)
    requires SignOk(s.mem)
    ensures SignOk(MemAfter(rom, Ret(reti), s))
  {
    hide SignBits, Assign, PopPcMem, SetFlags, Unpack, AluMem;
    PopPcFrame(s.mem, s.pc22, SREG);
    var m1 := PopPcMem(s.mem, s.pc22);
    OtherFlag(Flags(m1), I, true);
    SetSign(m1, Assign(Flags(m1), I, true));
  }

  lemma MemKeepsSign(rom: Rom, i: Insn, s: State)
    requires SignOk(s.mem) && !TouchesSign(i, s)
    ensures SignOk(MemAfter(rom, i, s))
  {
    hide SignBits, MemAfter, AluMem, OnlyAlu, MayWrite, Unpack;
    if OnlyAlu(i) {
      OnlyAluShape(rom, i, s);
      AluKeepsSign(rom, i, s.mem);
    } else if i.Ret? {
      RetKeepsSign(rom, s, i.reti);
    } else {
      MemFrame(rom, i, s, SREG);
    }
  }

  /** The next step of s may disturb S = N xor V. */
  predicate Disturbs(rom: Rom, s: State) {
    !s.skip && Fetch(rom, s.pc).Ok? && TouchesSign(Fetch(rom, s.pc).value, s)
  }

  lemma StepKeepsSign(rom: Rom, s: State)
    requires SignOk(s.mem) && !Disturbs(rom, s) && Step(rom, s).Ok?
    ensures SignOk(Step(rom, s).value.mem)
  {
    hide SignOk, TouchesSign, Fetch, Faults, MemAfter, PcAfter, SkipAfter, Size, Wrap;
    if !s.skip {
      MemKeepsSign(rom, Fetch(rom, s.pc).value, s);
    }
  }

  /** S = N xor V is kept by every run none of whose steps writes the three flags directly. */
  lemma {:induction false} RunKeepsSign(rom: Rom, s: State, n: nat)
    requires SignOk(s.mem) && Run(rom, s, n).Ok?
    requires forall k: nat | k < n && Run(rom, s, k).Ok? :: !Disturbs(rom, Run(rom, s, k).value)
    ensures SignOk(Run(rom, s, n).value.mem)
  {
    hide Step, Disturbs, SignOk;
    if n > 0 {
      RunKeepsSign(rom, s, n - 1);
      StepKeepsSign(rom, Run(rom, s, n - 1).value);
    }
  }
}
