/**
 The decode table row by row: a word matches a row and is read by its handler as
 instruction i exactly when it is the manual's spelling of i.

 `Shape<k>` says which bits row k asks for and what its handler makes of the
 others, `Spell<k>` how the manual spells that, and `Row<k>` puts them together.
 */
module OpcodeRows {
  import opened Bytes
  import opened Isa
  import opened Assembler
  import opened Fields

  /** Row k of the table takes w, followed by imm, for i. */
  predicate Takes(k: nat, w: bv16, imm: word, i: Insn)
    requires k < ROWS
  {
    Matches(Row(k), w) && Decode(Row(k).code, w, imm) == i
  }

  /** w is spelled as the manual spells i. */
  predicate Spelled(w: bv16, i: Insn) {
    Opcode(i).Some? && Agrees(w, Opcode(i).value)
  }

  // ----- shapes shared by many rows -----

  predicate TopIs(w: bv16, n: Nibble) {
    WordBit(w, 15) == n.b3 && WordBit(w, 14) == n.b2 && WordBit(w, 13) == n.b1 && WordBit(w, 12) == n.b0
  }

  predicate LowIs(w: bv16, n: Nibble) {
    WordBit(w, 3) == n.b3 && WordBit(w, 2) == n.b2 && WordBit(w, 1) == n.b1 && WordBit(w, 0) == n.b0
  }

  predicate SixIs(w: bv16, n: Nibble, e: bool, f: bool) {
    TopIs(w, n) && WordBit(w, 11) == e && WordBit(w, 10) == f
  }

  predicate SevenIs(w: bv16, e: bool, f: bool, g: bool) {
    SixIs(w, X(L, O, O, L), e, f) && WordBit(w, 9) == g
  }

  predicate EightIs(w: bv16, n: Nibble, m: Nibble) {
    && TopIs(w, n)
    && WordBit(w, 11) == m.b3 && WordBit(w, 10) == m.b2 && WordBit(w, 9) == m.b1 && WordBit(w, 8) == m.b0
  }

  lemma TwoRegsIff(w: bv16, n: Nibble, e: bool, f: bool, rd: reg, rr: reg)
    ensures Agrees(w, TwoRegs(n.b3, n.b2, n.b1, n.b0, e, f, rd, rr)) <==>
      SixIs(w, n, e, f) && D84Of(w) == rd && R9Of(w) == rr
  {
    hide WordBit, Bit, D84Of, R9Of;
    D84Iff(w, rd);
    R9Iff(w, rr);
  }

  lemma OneRegIff(w: bv16, a: bool, b: bool, rd: reg, op: Nibble)
    ensures Agrees(w, OneReg(a, b, rd, op)) <==> SevenIs(w, O, a, b) && LowIs(w, op) && D84Of(w) == rd
  {
    hide WordBit, Bit, D84Of;
    D84Iff(w, rd);
  }

  lemma ImmediateIff(w: bv16, op: Nibble, rd: reg, k: byte)
    requires rd >= 16
    ensures Agrees(w, Immediate(op, rd, k).value) <==> TopIs(w, op) && D74Of(w) == rd && K8Of(w) == k
  {
    hide WordBit, Bit, D74Of, K8Of;
    D74Iff(w, rd);
    K8Iff(w, k);
  }

  lemma D74High(w: bv16)
    ensures D74Of(w) >= 16
  {
    hide Field;
  }


  // ----- two registers -----

  lemma Shape6(w: bv16, imm: word)
    ensures Matches(Row(6), w) <==> SixIs(w, X(O, O, O, WordBit(w, 12)), O, L)
    ensures Decode(Row(6).code, w, imm) == Sub(D84Of(w), R9Of(w), Field(w, 12, 12) == 0, Field(w, 11, 10) != 1)
  {
    hide WordBit, D84Of, Field, R9Of;
    MaskBits(w);
  }

  lemma Row6(w: bv16, imm: word, i: Insn)
    requires i.Sub? && !i.store
    ensures Takes(6, w, imm, i) <==> Spelled(w, i)
  {
    hide WordBit, Bit, Field, Matches, Agrees, TwoRegs, D84Of, R9Of, Row, Decode;
    Shape6(w, imm);
    OneIff(w, 12);
    Holds2(w, 10, 1);
    BitsByDivision(1);
    TwoRegsIff(w, X(O, O, O, !i.carry), O, L, i.d, i.r);
  }

  lemma Shape7(w: bv16, imm: word)
    ensures Matches(Row(7), w) <==> SixIs(w, X(O, O, O, WordBit(w, 12)), L, O)
    ensures Decode(Row(7).code, w, imm) == Sub(D84Of(w), R9Of(w), Field(w, 12, 12) == 0, Field(w, 11, 10) != 1)
  {
    hide WordBit, D84Of, Field, R9Of;
    MaskBits(w);
  }

  lemma Row7(w: bv16, imm: word, i: Insn)
    requires i.Sub? && i.store
    ensures Takes(7, w, imm, i) <==> Spelled(w, i)
  {
    hide WordBit, Bit, Field, Matches, Agrees, TwoRegs, D84Of, R9Of, Row, Decode;
    Shape7(w, imm);
    OneIff(w, 12);
    Holds2(w, 10, 1);
    BitsByDivision(1);
    TwoRegsIff(w, X(O, O, O, !i.carry), L, O, i.d, i.r);
  }

  lemma Shape8(w: bv16, imm: word)
    ensures Matches(Row(8), w) <==> SixIs(w, X(O, O, O, WordBit(w, 12)), L, L)
    ensures Decode(Row(8).code, w, imm) == Add(D84Of(w), R9Of(w), Field(w, 12, 12) == 1)
  {
    hide WordBit, D84Of, Field, R9Of;
    MaskBits(w);
  }

  lemma Row8(w: bv16, imm: word, i: Insn)
    requires i.Add?
    ensures Takes(8, w, imm, i) <==> Spelled(w, i)
  {
    hide WordBit, Bit, Field, Matches, Agrees, TwoRegs, D84Of, R9Of, Row, Decode;
    Shape8(w, imm);
    OneIff(w, 12);
    TwoRegsIff(w, X(O, O, O, i.carry), L, L, i.d, i.r);
  }

  lemma Shape9(w: bv16, imm: word)
    ensures Matches(Row(9), w) <==> SixIs(w, X(O, O, O, L), O, O)
    ensures Decode(Row(9).code, w, imm) == SkipEq(D84Of(w), R9Of(w))
  {
    hide WordBit, D84Of, R9Of;
    MaskBits(w);
  }

  lemma Row9(w: bv16, imm: word, i: Insn)
    requires i.SkipEq?
    ensures Takes(9, w, imm, i) <==> Spelled(w, i)
  {
    hide WordBit, Bit, Field, Matches, Agrees, TwoRegs, D84Of, R9Of, Row, Decode;
    Shape9(w, imm);
    TwoRegsIff(w, X(O, O, O, L), O, O, i.d, i.r);
  }

  lemma Shape10(w: bv16, imm: word)
    ensures Matches(Row(10), w) <==> SixIs(w, X(O, O, L, O), O, O)
    ensures Decode(Row(10).code, w, imm) == Logic(AndOp, D84Of(w), R9Of(w))
  {
    hide WordBit, D84Of, R9Of;
    MaskBits(w);
  }

  lemma Row10(w: bv16, imm: word, i: Insn)
    requires i.Logic? && i.op == AndOp
    ensures Takes(10, w, imm, i) <==> Spelled(w, i)
  {
    hide WordBit, Bit, Field, Matches, Agrees, TwoRegs, D84Of, R9Of, Row, Decode;
    Shape10(w, imm);
    TwoRegsIff(w, X(O, O, L, O), O, O, i.d, i.r);
  }

  lemma Shape11(w: bv16, imm: word)
    ensures Matches(Row(11), w) <==> SixIs(w, X(O, O, L, O), O, L)
    ensures Decode(Row(11).code, w, imm) == Logic(XorOp, D84Of(w), R9Of(w))
  {
    hide WordBit, D84Of, R9Of;
    MaskBits(w);
  }

  lemma Row11(w: bv16, imm: word, i: Insn)
    requires i.Logic? && i.op == XorOp
    ensures Takes(11, w, imm, i) <==> Spelled(w, i)
  {
    hide WordBit, Bit, Field, Matches, Agrees, TwoRegs, D84Of, R9Of, Row, Decode;
    Shape11(w, imm);
    TwoRegsIff(w, X(O, O, L, O), O, L, i.d, i.r);
  }

  lemma Shape12(w: bv16, imm: word)
    ensures Matches(Row(12), w) <==> SixIs(w, X(O, O, L, O), L, O)
    ensures Decode(Row(12).code, w, imm) == Logic(OrOp, D84Of(w), R9Of(w))
  {
    hide WordBit, D84Of, R9Of;
    MaskBits(w);
  }

  lemma Row12(w: bv16, imm: word, i: Insn)
    requires i.Logic? && i.op == OrOp
    ensures Takes(12, w, imm, i) <==> Spelled(w, i)
  {
    hide WordBit, Bit, Field, Matches, Agrees, TwoRegs, D84Of, R9Of, Row, Decode;
    Shape12(w, imm);
    TwoRegsIff(w, X(O, O, L, O), L, O, i.d, i.r);
  }

  lemma Shape13(w: bv16, imm: word)
    ensures Matches(Row(13), w) <==> SixIs(w, X(O, O, L, O), L, L)
    ensures Decode(Row(13).code, w, imm) == Mov(D84Of(w), R9Of(w))
  {
    hide WordBit, D84Of, R9Of;
    MaskBits(w);
  }

  lemma Row13(w: bv16, imm: word, i: Insn)
    requires i.Mov?
    ensures Takes(13, w, imm, i) <==> Spelled(w, i)
  {
    hide WordBit, Bit, Field, Matches, Agrees, TwoRegs, D84Of, R9Of, Row, Decode;
    Shape13(w, imm);
    TwoRegsIff(w, X(O, O, L, O), L, L, i.d, i.r);
  }

  lemma Shape59(w: bv16, imm: word)
    ensures Matches(Row(59), w) <==> SixIs(w, X(L, O, O, L), L, L)
    ensures Decode(Row(59).code, w, imm) == Mul(false, false, false, D84Of(w), R9Of(w))
  {
    hide WordBit, D84Of, R9Of;
    MaskBits(w);
  }

  lemma Row59(w: bv16, imm: word, i: Insn)
    requires i.Mul? && !i.signedD && !i.signedR && !i.fractional
    ensures Takes(59, w, imm, i) <==> Spelled(w, i)
  {
    hide WordBit, Bit, Field, Matches, Agrees, TwoRegs, D84Of, R9Of, Row, Decode;
    Shape59(w, imm);
    TwoRegsIff(w, X(L, O, O, L), L, L, i.d, i.r);
  }

  // ----- one register and an operation -----

  lemma Shape20(w: bv16, imm: word)
    ensures Matches(Row(20), w) <==> SevenIs(w, O, O, O) && LowIs(w, X(O, O, O, O))
    ensures Decode(Row(20).code, w, imm) == Lds(D84Of(w), imm)
  {
    hide WordBit, D84Of;
    MaskBits(w);
  }

  lemma Row20(w: bv16, imm: word, i: Insn)
    requires i.Lds? && imm == Operand(i)
    ensures Takes(20, w, imm, i) <==> Spelled(w, i)
  {
    hide WordBit, Bit, Field, Matches, Agrees, OneReg, D84Of, Row, Decode;
    Shape20(w, imm);
    OneRegIff(w, O, O, i.d, X(O, O, O, O));
  }

  lemma Shape26(w: bv16, imm: word)
    ensures Matches(Row(26), w) <==> SevenIs(w, O, O, O) && LowIs(w, X(L, L, L, L))
    ensures Decode(Row(26).code, w, imm) == Pop(D84Of(w))
  {
    hide WordBit, D84Of;
    MaskBits(w);
  }

  lemma Row26(w: bv16, imm: word, i: Insn)
    requires i.Pop?
    ensures Takes(26, w, imm, i) <==> Spelled(w, i)
  {
    hide WordBit, Bit, Field, Matches, Agrees, OneReg, D84Of, Row, Decode;
    Shape26(w, imm);
    OneRegIff(w, O, O, i.d, X(L, L, L, L));
  }

  lemma Shape27(w: bv16, imm: word)
    ensures Matches(Row(27), w) <==> SevenIs(w, O, O, L) && LowIs(w, X(O, O, O, O))
    ensures Decode(Row(27).code, w, imm) == Sts(D84Of(w), imm)
  {
    hide WordBit, D84Of;
    MaskBits(w);
  }

  lemma Row27(w: bv16, imm: word, i: Insn)
    requires i.Sts? && imm == Operand(i)
    ensures Takes(27, w, imm, i) <==> Spelled(w, i)
  {
    hide WordBit, Bit, Field, Matches, Agrees, OneReg, D84Of, Row, Decode;
    Shape27(w, imm);
    OneRegIff(w, O, L, i.d, X(O, O, O, O));
  }

  lemma Shape33(w: bv16, imm: word)
    ensures Matches(Row(33), w) <==> SevenIs(w, O, O, L) && LowIs(w, X(L, L, L, L))
    ensures Decode(Row(33).code, w, imm) == Push(D84Of(w))
  {
    hide WordBit, D84Of;
    MaskBits(w);
  }

  lemma Row33(w: bv16, imm: word, i: Insn)
    requires i.Push?
    ensures Takes(33, w, imm, i) <==> Spelled(w, i)
  {
    hide WordBit, Bit, Field, Matches, Agrees, OneReg, D84Of, Row, Decode;
    Shape33(w, imm);
    OneRegIff(w, O, L, i.d, X(L, L, L, L));
  }

  lemma Shape34(w: bv16, imm: word)
    ensures Matches(Row(34), w) <==> SevenIs(w, O, L, O) && LowIs(w, X(O, O, O, O))
    ensures Decode(Row(34).code, w, imm) == Com(D84Of(w))
  {
    hide WordBit, D84Of;
    MaskBits(w);
  }

  lemma Row34(w: bv16, imm: word, i: Insn)
    requires i.Com?
    ensures Takes(34, w, imm, i) <==> Spelled(w, i)
  {
    hide WordBit, Bit, Field, Matches, Agrees, OneReg, D84Of, Row, Decode;
    Shape34(w, imm);
    OneRegIff(w, L, O, i.d, X(O, O, O, O));
  }

  lemma Shape35(w: bv16, imm: word)
    ensures Matches(Row(35), w) <==> SevenIs(w, O, L, O) && LowIs(w, X(O, O, O, L))
    ensures Decode(Row(35).code, w, imm) == Neg(D84Of(w))
  {
    hide WordBit, D84Of;
    MaskBits(w);
  }

  lemma Row35(w: bv16, imm: word, i: Insn)
    requires i.Neg?
    ensures Takes(35, w, imm, i) <==> Spelled(w, i)
  {
    hide WordBit, Bit, Field, Matches, Agrees, OneReg, D84Of, Row, Decode;
    Shape35(w, imm);
    OneRegIff(w, L, O, i.d, X(O, O, O, L));
  }

  lemma Shape36(w: bv16, imm: word)
    ensures Matches(Row(36), w) <==> SevenIs(w, O, L, O) && LowIs(w, X(O, O, L, O))
    ensures Decode(Row(36).code, w, imm) == Swap(D84Of(w))
  {
    hide WordBit, D84Of;
    MaskBits(w);
  }

  lemma Row36(w: bv16, imm: word, i: Insn)
    requires i.Swap?
    ensures Takes(36, w, imm, i) <==> Spelled(w, i)
  {
    hide WordBit, Bit, Field, Matches, Agrees, OneReg, D84Of, Row, Decode;
    Shape36(w, imm);
    OneRegIff(w, L, O, i.d, X(O, O, L, O));
  }

  lemma Shape37(w: bv16, imm: word)
    ensures Matches(Row(37), w) <==> SevenIs(w, O, L, O) && LowIs(w, X(O, O, L, L))
    ensures Decode(Row(37).code, w, imm) == Inc(D84Of(w))
  {
    hide WordBit, D84Of;
    MaskBits(w);
  }

  lemma Row37(w: bv16, imm: word, i: Insn)
    requires i.Inc?
    ensures Takes(37, w, imm, i) <==> Spelled(w, i)
  {
    hide WordBit, Bit, Field, Matches, Agrees, OneReg, D84Of, Row, Decode;
    Shape37(w, imm);
    OneRegIff(w, L, O, i.d, X(O, O, L, L));
  }

  lemma Shape38(w: bv16, imm: word)
    ensures Matches(Row(38), w) <==> SevenIs(w, O, L, O) && LowIs(w, X(O, L, O, L))
    ensures Decode(Row(38).code, w, imm) == Shift(Asr, D84Of(w))
  {
    hide WordBit, D84Of;
    MaskBits(w);
  }

  lemma Row38(w: bv16, imm: word, i: Insn)
    requires i.Shift? && i.shift == Asr
    ensures Takes(38, w, imm, i) <==> Spelled(w, i)
  {
    hide WordBit, Bit, Field, Matches, Agrees, OneReg, D84Of, Row, Decode;
    Shape38(w, imm);
    OneRegIff(w, L, O, i.d, X(O, L, O, L));
  }

  lemma Shape39(w: bv16, imm: word)
    ensures Matches(Row(39), w) <==> SevenIs(w, O, L, O) && LowIs(w, X(O, L, L, O))
    ensures Decode(Row(39).code, w, imm) == Shift(Lsr, D84Of(w))
  {
    hide WordBit, D84Of;
    MaskBits(w);
  }

  lemma Row39(w: bv16, imm: word, i: Insn)
    requires i.Shift? && i.shift == Lsr
    ensures Takes(39, w, imm, i) <==> Spelled(w, i)
  {
    hide WordBit, Bit, Field, Matches, Agrees, OneReg, D84Of, Row, Decode;
    Shape39(w, imm);
    OneRegIff(w, L, O, i.d, X(O, L, L, O));
  }

  lemma Shape40(w: bv16, imm: word)
    ensures Matches(Row(40), w) <==> SevenIs(w, O, L, O) && LowIs(w, X(O, L, L, L))
    ensures Decode(Row(40).code, w, imm) == Shift(Ror, D84Of(w))
  {
    hide WordBit, D84Of;
    MaskBits(w);
  }

  lemma Row40(w: bv16, imm: word, i: Insn)
    requires i.Shift? && i.shift == Ror
    ensures Takes(40, w, imm, i) <==> Spelled(w, i)
  {
    hide WordBit, Bit, Field, Matches, Agrees, OneReg, D84Of, Row, Decode;
    Shape40(w, imm);
    OneRegIff(w, L, O, i.d, X(O, L, L, L));
  }

  lemma Shape42(w: bv16, imm: word)
    ensures Matches(Row(42), w) <==> SevenIs(w, O, L, O) && LowIs(w, X(L, O, L, O))
    ensures Decode(Row(42).code, w, imm) == Dec(D84Of(w))
  {
    hide WordBit, D84Of;
    MaskBits(w);
  }

  lemma Row42(w: bv16, imm: word, i: Insn)
    requires i.Dec?
    ensures Takes(42, w, imm, i) <==> Spelled(w, i)
  {
    hide WordBit, Bit, Field, Matches, Agrees, OneReg, D84Of, Row, Decode;
    Shape42(w, imm);
    OneRegIff(w, L, O, i.d, X(L, O, L, O));
  }

  lemma Shape23(w: bv16, imm: word)
    ensures Matches(Row(23), w) <==> SevenIs(w, O, O, O) && LowIs(w, X(O, L, WordBit(w, 1), WordBit(w, 0)))
    ensures Decode(Row(23).code, w, imm) == Lpm(D84Of(w), Field(w, 1, 1) == 1, Field(w, 0, 0) == 1)
  {
    hide WordBit, D84Of, Field;
    MaskBits(w);
  }

  lemma Row23(w: bv16, imm: word, i: Insn)
    requires i.Lpm?
    ensures Takes(23, w, imm, i) <==> Spelled(w, i)
  {
    hide WordBit, Bit, Field, Matches, Agrees, OneReg, D84Of, Row, Decode;
    Shape23(w, imm);
    OneIff(w, 1);
    OneIff(w, 0);
    OneRegIff(w, O, O, i.d, X(O, L, i.ext, i.inc));
  }

  lemma Shape30(w: bv16, imm: word)
    ensures Matches(Row(30), w) <==> SevenIs(w, O, O, L) && LowIs(w, X(O, L, WordBit(w, 1), WordBit(w, 0)))
    ensures Decode(Row(30).code, w, imm) == Xch(XchOpOf(w), D84Of(w))
  {
    hide WordBit, D84Of, XchOpOf;
    MaskBits(w);
  }

  lemma Row30(w: bv16, imm: word, i: Insn)
    requires i.Xch?
    ensures Takes(30, w, imm, i) <==> Spelled(w, i)
  {
    hide WordBit, Bit, Field, Matches, Agrees, OneReg, D84Of, Row, Decode;
    Shape30(w, imm);
    LowTwo(w);
    OneRegIff(w, O, L, i.d, XchNibble(i.xop));
  }

  lemma Bits24(w: bv16)
    ensures Matches(Row(24), w) <==> SevenIs(w, O, O, O) && LowIs(w, X(L, L, O, WordBit(w, 0)))
  {
    hide WordBit;
    MaskBits(w);
  }

  lemma Code24()
    ensures Row(24).code == HLdx
  {
  }

  lemma Shape24(w: bv16, imm: word)
    ensures Matches(Row(24), w) <==> SevenIs(w, O, O, O) && LowIs(w, X(L, L, O, WordBit(w, 0)))
    ensures Decode(Row(24).code, w, imm) == LdSt(PtrX, ModeOf(Field(w, 1, 0), 0), D84Of(w), false)
  {
    hide Matches, Row, WordBit, D84Of, Field;
    Bits24(w);
    Code24();
  }

  lemma Row24(w: bv16, imm: word, i: Insn)
    requires i.LdSt? && i.ptr == PtrX && !i.mode.PreDec? && !i.store
    ensures Takes(24, w, imm, i) <==> Spelled(w, i)
  {
    hide WordBit, Bit, Field, Matches, Agrees, OneReg, D84Of, Row, Decode;
    Shape24(w, imm);
    LowTwo(w);
    OneRegIff(w, O, O, i.d, PointerOp(i.ptr, i.mode));
  }

  lemma Bits31(w: bv16)
    ensures Matches(Row(31), w) <==> SevenIs(w, O, O, L) && LowIs(w, X(L, L, O, WordBit(w, 0)))
  {
    hide WordBit;
    MaskBits(w);
  }

  lemma Code31()
    ensures Row(31).code == HStx
  {
  }

  lemma Shape31(w: bv16, imm: word)
    ensures Matches(Row(31), w) <==> SevenIs(w, O, O, L) && LowIs(w, X(L, L, O, WordBit(w, 0)))
    ensures Decode(Row(31).code, w, imm) == LdSt(PtrX, ModeOf(Field(w, 1, 0), 0), D84Of(w), true)
  {
    hide Matches, Row, WordBit, D84Of, Field;
    Bits31(w);
    Code31();
  }

  lemma Row31(w: bv16, imm: word, i: Insn)
    requires i.LdSt? && i.ptr == PtrX && !i.mode.PreDec? && i.store
    ensures Takes(31, w, imm, i) <==> Spelled(w, i)
  {
    hide WordBit, Bit, Field, Matches, Agrees, OneReg, D84Of, Row, Decode;
    Shape31(w, imm);
    LowTwo(w);
    OneRegIff(w, O, L, i.d, PointerOp(i.ptr, i.mode));
  }

  lemma Bits25(w: bv16)
    ensures Matches(Row(25), w) <==> SevenIs(w, O, O, O) && LowIs(w, X(L, L, L, O))
  {
    hide WordBit;
    MaskBits(w);
  }

  lemma Code25()
    ensures Row(25).code == HLdx
  {
  }

  lemma Shape25(w: bv16, imm: word)
    ensures Matches(Row(25), w) <==> SevenIs(w, O, O, O) && LowIs(w, X(L, L, L, O))
    ensures Decode(Row(25).code, w, imm) == LdSt(PtrX, ModeOf(Field(w, 1, 0), 0), D84Of(w), false)
  {
    hide Matches, Row, WordBit, D84Of, Field;
    Bits25(w);
    Code25();
  }

  lemma Row25(w: bv16, imm: word, i: Insn)
    requires i.LdSt? && i.ptr == PtrX && i.mode.PreDec? && !i.store
    ensures Takes(25, w, imm, i) <==> Spelled(w, i)
  {
    hide WordBit, Bit, Field, Matches, Agrees, OneReg, D84Of, Row, Decode;
    Shape25(w, imm);
    LowTwo(w);
    OneRegIff(w, O, O, i.d, PointerOp(i.ptr, i.mode));
  }

  lemma Bits32(w: bv16)
    ensures Matches(Row(32), w) <==> SevenIs(w, O, O, L) && LowIs(w, X(L, L, L, O))
  {
    hide WordBit;
    MaskBits(w);
  }

  lemma Code32()
    ensures Row(32).code == HStx
  {
  }

  lemma Shape32(w: bv16, imm: word)
    ensures Matches(Row(32), w) <==> SevenIs(w, O, O, L) && LowIs(w, X(L, L, L, O))
    ensures Decode(Row(32).code, w, imm) == LdSt(PtrX, ModeOf(Field(w, 1, 0), 0), D84Of(w), true)
  {
    hide Matches, Row, WordBit, D84Of, Field;
    Bits32(w);
    Code32();
  }

  lemma Row32(w: bv16, imm: word, i: Insn)
    requires i.LdSt? && i.ptr == PtrX && i.mode.PreDec? && i.store
    ensures Takes(32, w, imm, i) <==> Spelled(w, i)
  {
    hide WordBit, Bit, Field, Matches, Agrees, OneReg, D84Of, Row, Decode;
    Shape32(w, imm);
    LowTwo(w);
    OneRegIff(w, O, L, i.d, PointerOp(i.ptr, i.mode));
  }

  lemma Shape21(w: bv16, imm: word)
    ensures Matches(Row(21), w) <==> SevenIs(w, O, O, O) && LowIs(w, X(WordBit(w, 3), O, O, L))
    ensures Decode(Row(21).code, w, imm) == LdSt(YzPointer(w), YzMode(w), D84Of(w), false)
  {
    hide WordBit, D84Of, YzMode, YzPointer;
    MaskBits(w);
  }

  lemma Row21(w: bv16, imm: word, i: Insn)
    requires i.LdSt? && !i.ptr.PtrX? && i.mode.PostInc? && !i.store
    ensures Takes(21, w, imm, i) <==> Spelled(w, i)
  {
    hide WordBit, Bit, Field, Matches, Agrees, OneReg, D84Of, Row, Decode;
    Shape21(w, imm);
    LowTwo(w);
    OneIff(w, 12);
    OneIff(w, 3);
    OneRegIff(w, O, O, i.d, PointerOp(i.ptr, i.mode));
  }

  lemma Shape22(w: bv16, imm: word)
    ensures Matches(Row(22), w) <==> SevenIs(w, O, O, O) && LowIs(w, X(WordBit(w, 3), O, L, O))
    ensures Decode(Row(22).code, w, imm) == LdSt(YzPointer(w), YzMode(w), D84Of(w), false)
  {
    hide WordBit, D84Of, YzMode, YzPointer;
    MaskBits(w);
  }

  lemma Row22(w: bv16, imm: word, i: Insn)
    requires i.LdSt? && !i.ptr.PtrX? && i.mode.PreDec? && !i.store
    ensures Takes(22, w, imm, i) <==> Spelled(w, i)
  {
    hide WordBit, Bit, Field, Matches, Agrees, OneReg, D84Of, Row, Decode;
    Shape22(w, imm);
    LowTwo(w);
    OneIff(w, 12);
    OneIff(w, 3);
    OneRegIff(w, O, O, i.d, PointerOp(i.ptr, i.mode));
  }

  lemma Shape28(w: bv16, imm: word)
    ensures Matches(Row(28), w) <==> SevenIs(w, O, O, L) && LowIs(w, X(WordBit(w, 3), O, O, L))
    ensures Decode(Row(28).code, w, imm) == LdSt(YzPointer(w), YzMode(w), D84Of(w), true)
  {
    hide WordBit, D84Of, YzMode, YzPointer;
    MaskBits(w);
  }

  lemma Row28(w: bv16, imm: word, i: Insn)
    requires i.LdSt? && !i.ptr.PtrX? && i.mode.PostInc? && i.store
    ensures Takes(28, w, imm, i) <==> Spelled(w, i)
  {
    hide WordBit, Bit, Field, Matches, Agrees, OneReg, D84Of, Row, Decode;
    Shape28(w, imm);
    LowTwo(w);
    OneIff(w, 12);
    OneIff(w, 3);
    OneRegIff(w, O, L, i.d, PointerOp(i.ptr, i.mode));
  }

  lemma Shape29(w: bv16, imm: word)
    ensures Matches(Row(29), w) <==> SevenIs(w, O, O, L) && LowIs(w, X(WordBit(w, 3), O, L, O))
    ensures Decode(Row(29).code, w, imm) == LdSt(YzPointer(w), YzMode(w), D84Of(w), true)
  {
    hide WordBit, D84Of, YzMode, YzPointer;
    MaskBits(w);
  }

  lemma Row29(w: bv16, imm: word, i: Insn)
    requires i.LdSt? && !i.ptr.PtrX? && i.mode.PreDec? && i.store
    ensures Takes(29, w, imm, i) <==> Spelled(w, i)
  {
    hide WordBit, Bit, Field, Matches, Agrees, OneReg, D84Of, Row, Decode;
    Shape29(w, imm);
    LowTwo(w);
    OneIff(w, 12);
    OneIff(w, 3);
    OneRegIff(w, O, L, i.d, PointerOp(i.ptr, i.mode));
  }

  lemma Shape18(w: bv16, imm: word)
    ensures Matches(Row(18), w) <==> WordBit(w, 15) && !WordBit(w, 14) && !WordBit(w, 12) && WordBit(w, 9) == O
    ensures Decode(Row(18).code, w, imm) == LdSt(YzPointer(w), YzMode(w), D84Of(w), false)
  {
    hide WordBit, D84Of, YzMode, YzPointer;
    MaskBits(w);
  }

  lemma Spell18(w: bv16, i: Insn)
    requires i.LdSt? && !i.ptr.PtrX? && i.mode.Disp? && !i.store
    ensures Spelled(w, i) <==>
      && WordBit(w, 15) && !WordBit(w, 14) && !WordBit(w, 12) && WordBit(w, 9) == O && D84Of(w) == i.d
      && YzPointer(w) == i.ptr && YzMode(w) == i.mode
  {
    hide WordBit, Bit, Field, Matches, D84Of;
    OneIff(w, 12);
    OneIff(w, 3);
    D84Iff(w, i.d);
    DisplacementIff(w, i.mode.q);
  }

  lemma Row18(w: bv16, imm: word, i: Insn)
    requires i.LdSt? && !i.ptr.PtrX? && i.mode.Disp? && !i.store
    ensures Takes(18, w, imm, i) <==> Spelled(w, i)
  {
    hide WordBit, Field, Matches, Spelled, D84Of, Row, Decode;
    Shape18(w, imm);
    Spell18(w, i);
  }

  lemma Shape19(w: bv16, imm: word)
    ensures Matches(Row(19), w) <==> WordBit(w, 15) && !WordBit(w, 14) && !WordBit(w, 12) && WordBit(w, 9) == L
    ensures Decode(Row(19).code, w, imm) == LdSt(YzPointer(w), YzMode(w), D84Of(w), true)
  {
    hide WordBit, D84Of, YzMode, YzPointer;
    MaskBits(w);
  }

  lemma Spell19(w: bv16, i: Insn)
    requires i.LdSt? && !i.ptr.PtrX? && i.mode.Disp? && i.store
    ensures Spelled(w, i) <==>
      && WordBit(w, 15) && !WordBit(w, 14) && !WordBit(w, 12) && WordBit(w, 9) == L && D84Of(w) == i.d
      && YzPointer(w) == i.ptr && YzMode(w) == i.mode
  {
    hide WordBit, Bit, Field, Matches, D84Of;
    OneIff(w, 12);
    OneIff(w, 3);
    D84Iff(w, i.d);
    DisplacementIff(w, i.mode.q);
  }

  lemma Row19(w: bv16, imm: word, i: Insn)
    requires i.LdSt? && !i.ptr.PtrX? && i.mode.Disp? && i.store
    ensures Takes(19, w, imm, i) <==> Spelled(w, i)
  {
    hide WordBit, Field, Matches, Spelled, D84Of, Row, Decode;
    Shape19(w, imm);
    Spell19(w, i);
  }

  lemma Shape44(w: bv16, imm: word)
    ensures Matches(Row(44), w) <==> SevenIs(w, O, L, O) && LowIs(w, X(L, L, O, WordBit(w, 0)))
    ensures Decode(Row(44).code, w, imm) == Jmp(HighOf(w), imm)
  {
    hide WordBit, HighOf;
    MaskBits(w);
  }

  lemma Spell44(w: bv16, i: Insn)
    requires i.Jmp?
    ensures Spelled(w, i) <==> SevenIs(w, O, L, O) && LowIs(w, X(L, L, O, WordBit(w, 0))) && HighOf(w) == i.high
  {
    hide WordBit, Bit, Field, Matches, HighOf;
    HighFits(w);
    if i.high < 64 {
      HighIff(w, i.high);
    }
  }

  lemma Row44(w: bv16, imm: word, i: Insn)
    requires i.Jmp? && imm == Operand(i)
    ensures Takes(44, w, imm, i) <==> Spelled(w, i)
  {
    hide WordBit, Field, Matches, Spelled, HighOf, Row, Decode;
    Shape44(w, imm);
    Spell44(w, i);
  }

  lemma Shape45(w: bv16, imm: word)
    ensures Matches(Row(45), w) <==> SevenIs(w, O, L, O) && LowIs(w, X(L, L, L, WordBit(w, 0)))
    ensures Decode(Row(45).code, w, imm) == Call(HighOf(w), imm)
  {
    hide WordBit, HighOf;
    MaskBits(w);
  }

  lemma Spell45(w: bv16, i: Insn)
    requires i.Call?
    ensures Spelled(w, i) <==> SevenIs(w, O, L, O) && LowIs(w, X(L, L, L, WordBit(w, 0))) && HighOf(w) == i.high
  {
    hide WordBit, Bit, Field, Matches, HighOf;
    HighFits(w);
    if i.high < 64 {
      HighIff(w, i.high);
    }
  }

  lemma Row45(w: bv16, imm: word, i: Insn)
    requires i.Call? && imm == Operand(i)
    ensures Takes(45, w, imm, i) <==> Spelled(w, i)
  {
    hide WordBit, Field, Matches, Spelled, HighOf, Row, Decode;
    Shape45(w, imm);
    Spell45(w, i);
  }

  // ----- immediate operands -----

  lemma Bits14(w: bv16)
    ensures Matches(Row(14), w) <==> TopIs(w, X(O, O, L, L))
  {
    hide WordBit;
    MaskBits(w);
  }

  lemma Code14()
    ensures Row(14).code == HCpi
  {
  }

  lemma Shape14(w: bv16, imm: word)
    ensures Matches(Row(14), w) <==> TopIs(w, X(O, O, L, L))
    ensures Decode(Row(14).code, w, imm) == SubImm(D74Of(w), K8Of(w), Field(w, 12, 12) == 0, Field(w, 14, 13) == 2)
  {
    hide Matches, Row, WordBit, D74Of, K8Of, Field;
    Bits14(w);
    Code14();
  }

  lemma Row14(w: bv16, imm: word, i: Insn)
    requires i.SubImm? && !i.store
    ensures Takes(14, w, imm, i) <==> Spelled(w, i)
  {
    hide WordBit, Bit, Field, Matches, Agrees, D74Of, K8Of, Row, Decode;
    Shape14(w, imm);
    OneIff(w, 12);
    Holds2(w, 13, 2);
    BitsByDivision(2);
    D74High(w);
    if i.d >= 16 {
      ImmediateIff(w, X(O, O, L, L), i.d, i.k);
    }
  }

  lemma Bits15(w: bv16)
    ensures Matches(Row(15), w) <==> TopIs(w, X(O, L, O, WordBit(w, 12)))
  {
    hide WordBit;
    MaskBits(w);
  }

  lemma Code15()
    ensures Row(15).code == HCpi
  {
  }

  lemma Shape15(w: bv16, imm: word)
    ensures Matches(Row(15), w) <==> TopIs(w, X(O, L, O, WordBit(w, 12)))
    ensures Decode(Row(15).code, w, imm) == SubImm(D74Of(w), K8Of(w), Field(w, 12, 12) == 0, Field(w, 14, 13) == 2)
  {
    hide Matches, Row, WordBit, D74Of, K8Of, Field;
    Bits15(w);
    Code15();
  }

  lemma Row15(w: bv16, imm: word, i: Insn)
    requires i.SubImm? && i.store
    ensures Takes(15, w, imm, i) <==> Spelled(w, i)
  {
    hide WordBit, Bit, Field, Matches, Agrees, D74Of, K8Of, Row, Decode;
    Shape15(w, imm);
    OneIff(w, 12);
    Holds2(w, 13, 2);
    BitsByDivision(2);
    D74High(w);
    if i.d >= 16 {
      ImmediateIff(w, X(O, L, O, !i.carry), i.d, i.k);
    }
  }

  lemma Shape16(w: bv16, imm: word)
    ensures Matches(Row(16), w) <==> TopIs(w, X(O, L, L, O))
    ensures Decode(Row(16).code, w, imm) == LogicImm(OrOp, D74Of(w), K8Of(w))
  {
    hide WordBit, D74Of, K8Of;
    MaskBits(w);
  }

  lemma Row16(w: bv16, imm: word, i: Insn)
    requires i.LogicImm? && i.op == OrOp
    ensures Takes(16, w, imm, i) <==> Spelled(w, i)
  {
    hide WordBit, Bit, Field, Matches, Agrees, D74Of, K8Of, Row, Decode;
    Shape16(w, imm);
    D74High(w);
    if i.d >= 16 {
      ImmediateIff(w, X(O, L, L, O), i.d, i.k);
    }
  }

  lemma Shape17(w: bv16, imm: word)
    ensures Matches(Row(17), w) <==> TopIs(w, X(O, L, L, L))
    ensures Decode(Row(17).code, w, imm) == LogicImm(AndOp, D74Of(w), K8Of(w))
  {
    hide WordBit, D74Of, K8Of;
    MaskBits(w);
  }

  lemma Row17(w: bv16, imm: word, i: Insn)
    requires i.LogicImm? && i.op == AndOp
    ensures Takes(17, w, imm, i) <==> Spelled(w, i)
  {
    hide WordBit, Bit, Field, Matches, Agrees, D74Of, K8Of, Row, Decode;
    Shape17(w, imm);
    D74High(w);
    if i.d >= 16 {
      ImmediateIff(w, X(O, L, L, L), i.d, i.k);
    }
  }

  lemma Bits63(w: bv16)
    ensures Matches(Row(63), w) <==> TopIs(w, X(L, L, L, O))
  {
    hide WordBit;
    MaskBits(w);
  }

  lemma Code63()
    ensures Row(63).code == HLdi
  {
  }

  lemma Shape63(w: bv16, imm: word)
    ensures Matches(Row(63), w) <==> TopIs(w, X(L, L, L, O))
    ensures Decode(Row(63).code, w, imm) == Ldi(D74Of(w), K8Of(w))
  {
    hide Matches, Row, WordBit, D74Of, K8Of, Field;
    Bits63(w);
    Code63();
  }

  lemma Row63(w: bv16, imm: word, i: Insn)
    requires i.Ldi?
    ensures Takes(63, w, imm, i) <==> Spelled(w, i)
  {
    hide WordBit, Bit, Field, Matches, Agrees, D74Of, K8Of, Row, Decode;
    Shape63(w, imm);
    D74High(w);
    if i.d >= 16 {
      ImmediateIff(w, X(L, L, L, O), i.d, i.k);
    }
  }

  // ----- register pairs, products and the rest -----

  lemma Shape0(w: bv16, imm: word)
    ensures Matches(Row(0), w) <==> w == 0
    ensures Decode(Row(0).code, w, imm) == Nop
  {
    hide WordBit;
    MaskBits(w);
  }

  lemma Row0(w: bv16, imm: word, i: Insn)
    requires i.Nop?
    ensures Takes(0, w, imm, i) <==> Spelled(w, i)
  {
    hide WordBit, Field, Row, Decode;
    Shape0(w, imm);
    AgreesIff(w, Opcode(i).value);
    ZeroWord();
  }

  lemma Shape1(w: bv16, imm: word)
    ensures Matches(Row(1), w) <==> EightIs(w, X(O, O, O, O), X(O, O, O, L))
    ensures Decode(Row(1).code, w, imm) == Movw(EvenD(w), EvenR(w))
  {
    hide WordBit, EvenD, EvenR;
    MaskBits(w);
  }

  lemma Spell1(w: bv16, i: Insn)
    requires i.Movw?
    ensures Spelled(w, i) <==> EightIs(w, X(O, O, O, O), X(O, O, O, L)) && EvenD(w) == i.p && EvenR(w) == i.from
  {
    hide WordBit, Bit, Field, Matches;
    NibbleIff(w, 4, i.p / 2);
    NibbleIff(w, 0, i.from / 2);
    SmallNibbles();
  }

  lemma Row1(w: bv16, imm: word, i: Insn)
    requires i.Movw?
    ensures Takes(1, w, imm, i) <==> Spelled(w, i)
  {
    hide WordBit, Field, Matches, Spelled, Row, Decode;
    Shape1(w, imm);
    Spell1(w, i);
  }

  lemma Shape2(w: bv16, imm: word)
    ensures Matches(Row(2), w) <==> EightIs(w, X(O, O, O, O), X(O, O, L, O))
    ensures Decode(Row(2).code, w, imm) == Mul(true, true, false, D74Of(w), R30Of(w))
  {
    hide WordBit, D74Of, R30Of;
    MaskBits(w);
  }

  lemma Spell2(w: bv16, i: Insn)
    requires i.Mul? && i.signedD && i.signedR && !i.fractional
    ensures Spelled(w, i) <==> EightIs(w, X(O, O, O, O), X(O, O, L, O)) && D74Of(w) == i.d && R30Of(w) == i.r
  {
    hide WordBit, Bit, Field, Matches, D74Of, R30Of;
    D74Iff(w, i.d);
    R30Iff(w, i.r);
    SmallNibbles();
  }

  lemma Row2(w: bv16, imm: word, i: Insn)
    requires i.Mul? && i.signedD && i.signedR && !i.fractional
    ensures Takes(2, w, imm, i) <==> Spelled(w, i)
  {
    hide WordBit, Field, Matches, Spelled, D74Of, R30Of, Row, Decode;
    Shape2(w, imm);
    Spell2(w, i);
  }

  lemma Shape3(w: bv16, imm: word)
    ensures Matches(Row(3), w) <==>
      EightIs(w, X(O, O, O, O), X(O, O, L, L)) && WordBit(w, 7) == O && WordBit(w, 3) == O
    ensures Decode(Row(3).code, w, imm) == Mul(true, false, false, D64Of(w), R20Of(w))
  {
    hide WordBit, D64Of, R20Of;
    MaskBits(w);
  }

  lemma Spell3(w: bv16, i: Insn)
    requires i.Mul? && i.signedD && !i.signedR && !i.fractional
    ensures Spelled(w, i) <==>
      && EightIs(w, X(O, O, O, O), X(O, O, L, L)) && WordBit(w, 7) == O && WordBit(w, 3) == O && D64Of(w) == i.d
      && R20Of(w) == i.r
  {
    hide WordBit, Bit, Field, Matches, D64Of, R20Of;
    D64Iff(w, i.d);
    R20Iff(w, i.r);
  }

  lemma Row3(w: bv16, imm: word, i: Insn)
    requires i.Mul? && i.signedD && !i.signedR && !i.fractional
    ensures Takes(3, w, imm, i) <==> Spelled(w, i)
  {
    hide WordBit, Field, Matches, Spelled, D64Of, R20Of, Row, Decode;
    Shape3(w, imm);
    Spell3(w, i);
  }

  lemma Shape4(w: bv16, imm: word)
    ensures Matches(Row(4), w) <==>
      EightIs(w, X(O, O, O, O), X(O, O, L, L)) && WordBit(w, 7) == O && WordBit(w, 3) == L
    ensures Decode(Row(4).code, w, imm) == Mul(false, false, true, D64Of(w), R20Of(w))
  {
    hide WordBit, D64Of, R20Of;
    MaskBits(w);
  }

  lemma Spell4(w: bv16, i: Insn)
    requires i.Mul? && !i.signedD && !i.signedR && i.fractional
    ensures Spelled(w, i) <==>
      && EightIs(w, X(O, O, O, O), X(O, O, L, L)) && WordBit(w, 7) == O && WordBit(w, 3) == L && D64Of(w) == i.d
      && R20Of(w) == i.r
  {
    hide WordBit, Bit, Field, Matches, D64Of, R20Of;
    D64Iff(w, i.d);
    R20Iff(w, i.r);
  }

  lemma Row4(w: bv16, imm: word, i: Insn)
    requires i.Mul? && !i.signedD && !i.signedR && i.fractional
    ensures Takes(4, w, imm, i) <==> Spelled(w, i)
  {
    hide WordBit, Field, Matches, Spelled, D64Of, R20Of, Row, Decode;
    Shape4(w, imm);
    Spell4(w, i);
  }

  lemma Shape5(w: bv16, imm: word)
    ensures Matches(Row(5), w) <==> EightIs(w, X(O, O, O, O), X(O, O, L, L)) && WordBit(w, 7)
    ensures Decode(Row(5).code, w, imm) == Mul(true, Field(w, 3, 3) == 0, true, D64Of(w), R20Of(w))
  {
    hide WordBit, D64Of, Field, R20Of;
    MaskBits(w);
  }

  lemma Spell5(w: bv16, i: Insn)
    requires i.Mul? && i.signedD && i.fractional
    ensures Spelled(w, i) <==>
      && EightIs(w, X(O, O, O, O), X(O, O, L, L)) && WordBit(w, 7) && D64Of(w) == i.d && R20Of(w) == i.r
      && (Field(w, 3, 3) == 0) == i.signedR
  {
    hide WordBit, Bit, Field, Matches, D64Of, R20Of;
    OneIff(w, 3);
    D64Iff(w, i.d);
    R20Iff(w, i.r);
  }

  lemma Row5(w: bv16, imm: word, i: Insn)
    requires i.Mul? && i.signedD && i.fractional
    ensures Takes(5, w, imm, i) <==> Spelled(w, i)
  {
    hide WordBit, Field, Matches, Spelled, D64Of, R20Of, Row, Decode;
    Shape5(w, imm);
    Spell5(w, i);
  }

  lemma Bits41(w: bv16)
    ensures Matches(Row(41), w) <==> EightIs(w, X(L, O, O, L), X(O, L, O, O)) && LowIs(w, X(L, O, O, O))
  {
    hide WordBit;
    MaskBits(w);
  }

  lemma Code41()
    ensures Row(41).code == HBclrset
  {
  }

  lemma Shape41(w: bv16, imm: word)
    ensures Matches(Row(41), w) <==> EightIs(w, X(L, O, O, L), X(O, L, O, O)) && LowIs(w, X(L, O, O, O))
    ensures Decode(Row(41).code, w, imm) == SetFlag(FlagOf(w), Field(w, 7, 7) == 0)
  {
    hide Matches, Row, WordBit, FlagOf, Field;
    Bits41(w);
    Code41();
  }

  lemma Spell41(w: bv16, i: Insn)
    requires i.SetFlag?
    ensures Spelled(w, i) <==>
      && EightIs(w, X(L, O, O, L), X(O, L, O, O)) && LowIs(w, X(L, O, O, O)) && FlagOf(w) == i.b
      && (Field(w, 7, 7) == 0) == i.value
  {
    hide WordBit, Bit, Field, Matches, FlagOf, Nib;
    OneIff(w, 7);
    FlagIff(w, i.b);
    SmallNibbles();
  }

  lemma Row41(w: bv16, imm: word, i: Insn)
    requires i.SetFlag?
    ensures Takes(41, w, imm, i) <==> Spelled(w, i)
  {
    hide WordBit, Field, Matches, Spelled, FlagOf, Nib, Row, Decode;
    Shape41(w, imm);
    Spell41(w, i);
  }

  lemma Shape43(w: bv16, imm: word)
    ensures Matches(Row(43), w) <==> EightIs(w, X(L, O, O, L), X(O, L, O, O)) && LowIs(w, X(L, O, L, L))
    ensures Decode(Row(43).code, w, imm) == Des(RoundOf(w))
  {
    hide WordBit, RoundOf;
    MaskBits(w);
  }

  lemma Spell43(w: bv16, i: Insn)
    requires i.Des?
    ensures Spelled(w, i) <==>
      EightIs(w, X(L, O, O, L), X(O, L, O, O)) && LowIs(w, X(L, O, L, L)) && RoundOf(w) == i.round
  {
    hide WordBit, Bit, Field, Matches;
    RoundFits(w);
    if i.round < 16 {
      NibbleIff(w, 4, i.round);
    }
    SmallNibbles();
  }

  lemma Row43(w: bv16, imm: word, i: Insn)
    requires i.Des?
    ensures Takes(43, w, imm, i) <==> Spelled(w, i)
  {
    hide WordBit, Field, Matches, Spelled, Row, Decode;
    Shape43(w, imm);
    Spell43(w, i);
  }

  lemma Shape46(w: bv16, imm: word)
    ensures Matches(Row(46), w) <==> w == 0x9508
    ensures Decode(Row(46).code, w, imm) == Ret(false)
  {
    hide WordBit;
    MaskBits(w);
  }

  lemma Row46(w: bv16, imm: word, i: Insn)
    requires i.Ret? && i.reti == false
    ensures Takes(46, w, imm, i) <==> Spelled(w, i)
  {
    hide WordBit, Field, Agrees, Row, Decode;
    Shape46(w, imm);
    AgreesIff(w, Opcode(i).value);
    RetWords();
  }

  lemma Shape48(w: bv16, imm: word)
    ensures Matches(Row(48), w) <==> w == 0x9518
    ensures Decode(Row(48).code, w, imm) == Ret(true)
  {
    hide WordBit;
    MaskBits(w);
  }

  lemma Row48(w: bv16, imm: word, i: Insn)
    requires i.Ret? && i.reti == true
    ensures Takes(48, w, imm, i) <==> Spelled(w, i)
  {
    hide WordBit, Field, Agrees, Row, Decode;
    Shape48(w, imm);
    AgreesIff(w, Opcode(i).value);
    RetWords();
  }

  /** The bits of an indirect jump or call that do not depend on which it is. */
  predicate IndirectIs(w: bv16) {
    && EightIs(w, X(L, O, O, L), X(O, L, O, WordBit(w, 8))) && !WordBit(w, 7) && !WordBit(w, 6) && !WordBit(w, 5)
    && LowIs(w, X(L, O, O, L))
  }

  lemma IndirectQuad(i: Insn)
    requires i.IndJump?
    ensures Opcode(i) == Some(Quad(X(L, O, O, L), X(O, L, O, i.call), X(O, O, O, i.ext), X(L, O, O, L)))
  {
    hide Bit, Nib;
    SmallNibbles();
  }

  lemma Bits47(w: bv16)
    ensures Matches(Row(47), w) <==> IndirectIs(w)
  {
    hide WordBit;
    MaskBits(w);
  }

  lemma Code47()
    ensures Row(47).code == HEicalljump
  {
  }

  lemma Shape47(w: bv16, imm: word)
    ensures Matches(Row(47), w) <==> IndirectIs(w)
    ensures Decode(Row(47).code, w, imm) == IndJump(Field(w, 4, 4) == 1, Field(w, 8, 8) == 1)
  {
    hide Matches, Row, WordBit, Field;
    Bits47(w);
    Code47();
  }

  lemma Spell47(w: bv16, i: Insn)
    requires i.IndJump?
    ensures Spelled(w, i) <==> IndirectIs(w) && (Field(w, 4, 4) == 1) == i.ext && (Field(w, 8, 8) == 1) == i.call
  {
    hide WordBit, Bit, Field, Matches, Opcode;
    OneIff(w, 4);
    OneIff(w, 8);
    IndirectQuad(i);
  }

  lemma Row47(w: bv16, imm: word, i: Insn)
    requires i.IndJump?
    ensures Takes(47, w, imm, i) <==> Spelled(w, i)
  {
    hide WordBit, Field, Matches, Spelled, Opcode, Row, Decode;
    Shape47(w, imm);
    Spell47(w, i);
  }

  lemma Shape55(w: bv16, imm: word)
    ensures Matches(Row(55), w) <==> EightIs(w, X(L, O, O, L), X(O, L, L, O))
    ensures Decode(Row(55).code, w, imm) == Adiw(PairOf(w), K6Of(w))
  {
    hide WordBit, K6Of, PairOf;
    MaskBits(w);
  }

  lemma Spell55(w: bv16, i: Insn)
    requires i.Adiw?
    ensures Spelled(w, i) <==> EightIs(w, X(L, O, O, L), X(O, L, L, O)) && PairOf(w) == i.p && K6Of(w) == i.q
  {
    hide WordBit, Bit, Field, Matches, PairOf, K6Of;
    PairIff(w, i.p);
    K6Iff(w, i.q);
    SmallNibbles();
  }

  lemma Row55(w: bv16, imm: word, i: Insn)
    requires i.Adiw?
    ensures Takes(55, w, imm, i) <==> Spelled(w, i)
  {
    hide WordBit, Field, Matches, Spelled, PairOf, K6Of, Row, Decode;
    Shape55(w, imm);
    Spell55(w, i);
  }

  lemma Bits56(w: bv16)
    ensures Matches(Row(56), w) <==> EightIs(w, X(L, O, O, L), X(O, L, L, L))
  {
    hide WordBit;
    MaskBits(w);
  }

  lemma Code56()
    ensures Row(56).code == HSbiw
  {
  }

  lemma Shape56(w: bv16, imm: word)
    ensures Matches(Row(56), w) <==> EightIs(w, X(L, O, O, L), X(O, L, L, L))
    ensures Decode(Row(56).code, w, imm) == Sbiw(PairOf(w), K6Of(w))
  {
    hide Matches, Row, WordBit, K6Of, PairOf, Field;
    Bits56(w);
    Code56();
  }

  lemma Spell56(w: bv16, i: Insn)
    requires i.Sbiw?
    ensures Spelled(w, i) <==> EightIs(w, X(L, O, O, L), X(O, L, L, L)) && PairOf(w) == i.p && K6Of(w) == i.q
  {
    hide WordBit, Bit, Field, Matches, PairOf, K6Of;
    PairIff(w, i.p);
    K6Iff(w, i.q);
    SmallNibbles();
  }

  lemma Row56(w: bv16, imm: word, i: Insn)
    requires i.Sbiw?
    ensures Takes(56, w, imm, i) <==> Spelled(w, i)
  {
    hide WordBit, Field, Matches, Spelled, PairOf, K6Of, Row, Decode;
    Shape56(w, imm);
    Spell56(w, i);
  }

  lemma Bits57(w: bv16)
    ensures Matches(Row(57), w) <==> EightIs(w, X(L, O, O, L), X(L, O, WordBit(w, 9), O))
  {
    hide WordBit;
    MaskBits(w);
  }

  lemma Code57()
    ensures Row(57).code == HCbisbi
  {
  }

  lemma Shape57(w: bv16, imm: word)
    ensures Matches(Row(57), w) <==> EightIs(w, X(L, O, O, L), X(L, O, WordBit(w, 9), O))
    ensures Decode(Row(57).code, w, imm) == IoBit(LowPortOf(w), BitOf(w), Field(w, 9, 9) == 1)
  {
    hide Matches, Row, WordBit, BitOf, LowPortOf, Field;
    Bits57(w);
    Code57();
  }

  lemma Spell57(w: bv16, i: Insn)
    requires i.IoBit?
    ensures Spelled(w, i) <==>
      && EightIs(w, X(L, O, O, L), X(L, O, WordBit(w, 9), O)) && LowPortOf(w) == i.low && BitOf(w) == i.b
      && (Field(w, 9, 9) == 1) == i.value
  {
    hide WordBit, Bit, Field, Matches, LowPortOf, BitOf;
    OneIff(w, 9);
    LowPortIff(w, i.low);
    BitIff(w, i.b);
  }

  lemma Row57(w: bv16, imm: word, i: Insn)
    requires i.IoBit?
    ensures Takes(57, w, imm, i) <==> Spelled(w, i)
  {
    hide WordBit, Field, Matches, Spelled, LowPortOf, BitOf, Row, Decode;
    Shape57(w, imm);
    Spell57(w, i);
  }

  lemma Bits58(w: bv16)
    ensures Matches(Row(58), w) <==> EightIs(w, X(L, O, O, L), X(L, O, WordBit(w, 9), L))
  {
    hide WordBit;
    MaskBits(w);
  }

  lemma Code58()
    ensures Row(58).code == HSbics
  {
  }

  lemma Shape58(w: bv16, imm: word)
    ensures Matches(Row(58), w) <==> EightIs(w, X(L, O, O, L), X(L, O, WordBit(w, 9), L))
    ensures Decode(Row(58).code, w, imm) == SkipIo(LowPortOf(w), BitOf(w), Field(w, 9, 9) == 1)
  {
    hide Matches, Row, WordBit, BitOf, LowPortOf, Field;
    Bits58(w);
    Code58();
  }

  lemma Spell58(w: bv16, i: Insn)
    requires i.SkipIo?
    ensures Spelled(w, i) <==>
      && EightIs(w, X(L, O, O, L), X(L, O, WordBit(w, 9), L)) && LowPortOf(w) == i.low && BitOf(w) == i.b
      && (Field(w, 9, 9) == 1) == i.value
  {
    hide WordBit, Bit, Field, Matches, LowPortOf, BitOf;
    OneIff(w, 9);
    LowPortIff(w, i.low);
    BitIff(w, i.b);
  }

  lemma Row58(w: bv16, imm: word, i: Insn)
    requires i.SkipIo?
    ensures Takes(58, w, imm, i) <==> Spelled(w, i)
  {
    hide WordBit, Field, Matches, Spelled, LowPortOf, BitOf, Row, Decode;
    Shape58(w, imm);
    Spell58(w, i);
  }

  lemma Bits60(w: bv16)
    ensures Matches(Row(60), w) <==> TopIs(w, X(L, O, L, L)) && WordBit(w, 11) == O
  {
    hide WordBit;
    MaskBits(w);
  }

  lemma Code60()
    ensures Row(60).code == HIn
  {
  }

  lemma Shape60(w: bv16, imm: word)
    ensures Matches(Row(60), w) <==> TopIs(w, X(L, O, L, L)) && WordBit(w, 11) == O
    ensures Decode(Row(60).code, w, imm) == In(D84Of(w), PortOf(w))
  {
    hide Matches, Row, WordBit, D84Of, PortOf, Field;
    Bits60(w);
    Code60();
  }

  lemma Spell60(w: bv16, i: Insn)
    requires i.In?
    ensures Spelled(w, i) <==>
      TopIs(w, X(L, O, L, L)) && WordBit(w, 11) == O && D84Of(w) == i.d && PortOf(w) == i.port
  {
    hide WordBit, Bit, Field, Matches, D84Of, PortOf;
    D84Iff(w, i.d);
    PortIff(w, i.port);
  }

  lemma Row60(w: bv16, imm: word, i: Insn)
    requires i.In?
    ensures Takes(60, w, imm, i) <==> Spelled(w, i)
  {
    hide WordBit, Field, Matches, Spelled, D84Of, PortOf, Row, Decode;
    Shape60(w, imm);
    Spell60(w, i);
  }

  lemma Bits61(w: bv16)
    ensures Matches(Row(61), w) <==> TopIs(w, X(L, O, L, L)) && WordBit(w, 11) == L
  {
    hide WordBit;
    MaskBits(w);
  }

  lemma Code61()
    ensures Row(61).code == HOut
  {
  }

  lemma Shape61(w: bv16, imm: word)
    ensures Matches(Row(61), w) <==> TopIs(w, X(L, O, L, L)) && WordBit(w, 11) == L
    ensures Decode(Row(61).code, w, imm) == Out(D84Of(w), PortOf(w))
  {
    hide Matches, Row, WordBit, D84Of, PortOf, Field;
    Bits61(w);
    Code61();
  }

  lemma Spell61(w: bv16, i: Insn)
    requires i.Out?
    ensures Spelled(w, i) <==>
      TopIs(w, X(L, O, L, L)) && WordBit(w, 11) == L && D84Of(w) == i.d && PortOf(w) == i.port
  {
    hide WordBit, Bit, Field, Matches, D84Of, PortOf;
    D84Iff(w, i.d);
    PortIff(w, i.port);
  }

  lemma Row61(w: bv16, imm: word, i: Insn)
    requires i.Out?
    ensures Takes(61, w, imm, i) <==> Spelled(w, i)
  {
    hide WordBit, Field, Matches, Spelled, D84Of, PortOf, Row, Decode;
    Shape61(w, imm);
    Spell61(w, i);
  }

  lemma Bits62(w: bv16)
    ensures Matches(Row(62), w) <==> WordBit(w, 15) && WordBit(w, 14) && !WordBit(w, 13)
  {
    hide WordBit;
    MaskBits(w);
  }

  lemma Code62()
    ensures Row(62).code == HRcalljmp
  {
  }

  lemma Shape62(w: bv16, imm: word)
    ensures Matches(Row(62), w) <==> WordBit(w, 15) && WordBit(w, 14) && !WordBit(w, 13)
    ensures Decode(Row(62).code, w, imm) == RelJump(JumpOffset(w), Field(w, 12, 12) == 1)
  {
    hide Matches, Row, WordBit, JumpOffset, Field;
    Bits62(w);
    Code62();
  }

  lemma Spell62(w: bv16, i: Insn)
    requires i.RelJump?
    ensures Spelled(w, i) <==>
      && WordBit(w, 15) && WordBit(w, 14) && !WordBit(w, 13) && JumpOffset(w) == i.offset
      && (Field(w, 12, 12) == 1) == i.call
  {
    hide WordBit, Bit, Field, Matches, JumpOffset;
    OffsetsFit(w);
    OneIff(w, 12);
    if -2048 <= i.offset < 2048 {
      JumpIff(w, i.offset);
    }
  }

  lemma Row62(w: bv16, imm: word, i: Insn)
    requires i.RelJump?
    ensures Takes(62, w, imm, i) <==> Spelled(w, i)
  {
    hide WordBit, Field, Matches, Spelled, JumpOffset, Row, Decode;
    Shape62(w, imm);
    Spell62(w, i);
  }

  lemma Bits64(w: bv16)
    ensures Matches(Row(64), w) <==> TopIs(w, X(L, L, L, L)) && !WordBit(w, 11)
  {
    hide WordBit;
    MaskBits(w);
  }

  lemma Code64()
    ensures Row(64).code == HBrb
  {
  }

  lemma Shape64(w: bv16, imm: word)
    ensures Matches(Row(64), w) <==> TopIs(w, X(L, L, L, L)) && !WordBit(w, 11)
    ensures Decode(Row(64).code, w, imm) == Branch(BitOf(w), Field(w, 10, 10) == 0, BranchOffset(w))
  {
    hide Matches, Row, WordBit, BitOf, BranchOffset, Field;
    Bits64(w);
    Code64();
  }

  lemma Spell64(w: bv16, i: Insn)
    requires i.Branch?
    ensures Spelled(w, i) <==>
      && TopIs(w, X(L, L, L, L)) && !WordBit(w, 11) && BitOf(w) == i.b && BranchOffset(w) == i.offset
      && (Field(w, 10, 10) == 0) == i.value
  {
    hide WordBit, Bit, Field, Matches, BranchOffset, BitOf, Nib;
    OffsetsFit(w);
    OneIff(w, 10);
    BitIff(w, i.b);
    SmallNibbles();
    if -64 <= i.offset < 64 {
      BranchIff(w, i.offset);
      BranchBits(i.offset % 128);
    }
  }

  lemma Row64(w: bv16, imm: word, i: Insn)
    requires i.Branch?
    ensures Takes(64, w, imm, i) <==> Spelled(w, i)
  {
    hide WordBit, Field, Matches, Spelled, BranchOffset, BitOf, Nib, Row, Decode;
    Shape64(w, imm);
    Spell64(w, i);
  }

  lemma Bits65(w: bv16)
    ensures Matches(Row(65), w) <==> SixIs(w, X(L, L, L, L), L, O) && WordBit(w, 9) == O && !WordBit(w, 3)
  {
    hide WordBit;
    MaskBits(w);
  }

  lemma Code65()
    ensures Row(65).code == HBld
  {
  }

  lemma Shape65(w: bv16, imm: word)
    ensures Matches(Row(65), w) <==> SixIs(w, X(L, L, L, L), L, O) && WordBit(w, 9) == O && !WordBit(w, 3)
    ensures Decode(Row(65).code, w, imm) == Bld(D84Of(w), BitOf(w))
  {
    hide Matches, Row, WordBit, BitOf, D84Of, Field;
    Bits65(w);
    Code65();
  }

  lemma Spell65(w: bv16, i: Insn)
    requires i.Bld?
    ensures Spelled(w, i) <==>
      SixIs(w, X(L, L, L, L), L, O) && WordBit(w, 9) == O && !WordBit(w, 3) && D84Of(w) == i.d && BitOf(w) == i.b
  {
    hide WordBit, Bit, Field, Matches, D84Of, BitOf;
    D84Iff(w, i.d);
    BitIff(w, i.b);
  }

  lemma Row65(w: bv16, imm: word, i: Insn)
    requires i.Bld?
    ensures Takes(65, w, imm, i) <==> Spelled(w, i)
  {
    hide WordBit, Field, Matches, Spelled, D84Of, BitOf, Row, Decode;
    Shape65(w, imm);
    Spell65(w, i);
  }

  lemma Bits66(w: bv16)
    ensures Matches(Row(66), w) <==> SixIs(w, X(L, L, L, L), L, O) && WordBit(w, 9) == L && !WordBit(w, 3)
  {
    hide WordBit;
    MaskBits(w);
  }

  lemma Code66()
    ensures Row(66).code == HBst
  {
  }

  lemma Shape66(w: bv16, imm: word)
    ensures Matches(Row(66), w) <==> SixIs(w, X(L, L, L, L), L, O) && WordBit(w, 9) == L && !WordBit(w, 3)
    ensures Decode(Row(66).code, w, imm) == Bst(D84Of(w), BitOf(w))
  {
    hide Matches, Row, WordBit, BitOf, D84Of, Field;
    Bits66(w);
    Code66();
  }

  lemma Spell66(w: bv16, i: Insn)
    requires i.Bst?
    ensures Spelled(w, i) <==>
      SixIs(w, X(L, L, L, L), L, O) && WordBit(w, 9) == L && !WordBit(w, 3) && D84Of(w) == i.d && BitOf(w) == i.b
  {
    hide WordBit, Bit, Field, Matches, D84Of, BitOf;
    D84Iff(w, i.d);
    BitIff(w, i.b);
  }

  lemma Row66(w: bv16, imm: word, i: Insn)
    requires i.Bst?
    ensures Takes(66, w, imm, i) <==> Spelled(w, i)
  {
    hide WordBit, Field, Matches, Spelled, D84Of, BitOf, Row, Decode;
    Shape66(w, imm);
    Spell66(w, i);
  }

  lemma Bits67(w: bv16)
    ensures Matches(Row(67), w) <==> SixIs(w, X(L, L, L, L), L, L) && !WordBit(w, 3)
  {
    hide WordBit;
    MaskBits(w);
  }

  lemma Code67()
    ensures Row(67).code == HSbrcs
  {
  }

  lemma Shape67(w: bv16, imm: word)
    ensures Matches(Row(67), w) <==> SixIs(w, X(L, L, L, L), L, L) && !WordBit(w, 3)
    ensures Decode(Row(67).code, w, imm) == SkipBit(D84Of(w), BitOf(w), Field(w, 9, 9) == 1)
  {
    hide Matches, Row, WordBit, BitOf, D84Of, Field;
    Bits67(w);
    Code67();
  }

  lemma Spell67(w: bv16, i: Insn)
    requires i.SkipBit?
    ensures Spelled(w, i) <==>
      && SixIs(w, X(L, L, L, L), L, L) && !WordBit(w, 3) && D84Of(w) == i.d && BitOf(w) == i.b
      && (Field(w, 9, 9) == 1) == i.value
  {
    hide WordBit, Bit, Field, Matches, D84Of, BitOf;
    OneIff(w, 9);
    D84Iff(w, i.d);
    BitIff(w, i.b);
  }

  lemma Row67(w: bv16, imm: word, i: Insn)
    requires i.SkipBit?
    ensures Takes(67, w, imm, i) <==> Spelled(w, i)
  {
    hide WordBit, Field, Matches, Spelled, D84Of, BitOf, Row, Decode;
    Shape67(w, imm);
    Spell67(w, i);
  }

  // ----- small facts -----

  lemma LowTwo(w: bv16)
    ensures Field(w, 1, 0) == Num(WordBit(w, 0)) + 2 * Num(WordBit(w, 1))
  {
    hide WordBit, Field;
    FieldDef(w, 1, 0);
    FieldDef(w, 1, 1);
  }

  lemma HighFits(w: bv16)
    ensures HighOf(w) < 64
  {
    hide Field;
  }

  lemma RoundFits(w: bv16)
    ensures RoundOf(w) < 16
  {
    hide Field;
  }

  lemma SmallNibbles()
    ensures Nib(0) == X(O, O, O, O) && Nib(1) == X(O, O, O, L) && Nib(2) == X(O, O, L, O) && Nib(4) == X(O, L, O, O)
    ensures Nib(5) == X(O, L, O, L) && Nib(8) == X(L, O, O, O) && Nib(9) == X(L, O, O, L) && Nib(11) == X(L, O, L, L)
    ensures Nib(15) == X(L, L, L, L)
  {
  }

  lemma ZeroWord()
    ensures WordOf(Quad(Nib(0), Nib(0), Nib(0), Nib(0))) == 0
  {
    hide Nib;
    SmallNibbles();
  }

  lemma RetWords()
    ensures WordOf(Quad(Nib(9), Nib(5), X(O, O, O, O), Nib(8))) == 0x9508
    ensures WordOf(Quad(Nib(9), Nib(5), X(O, O, O, L), Nib(8))) == 0x9518
  {
    hide Nib;
    SmallNibbles();
  }

  /** The seven bits of a branch offset, as the manual spreads them. */
  lemma BranchBits(k: nat)
    requires k < 128
    ensures Bit(k / 16, 0) == Bit(k, 4) && Bit(k / 16, 1) == Bit(k, 5) && Bit(k / 16, 2) == Bit(k, 6)
  {
    hide Bit;
    BitDivides(k, 4);
    BitDivides(k, 5);
    BitDivides(k, 6);
    BitsByDivision(k / 16);
  }
}
