/**
 The decoder and the manual agree on every word.

 An instruction is fetched exactly where flash holds the manual's words for it,
 whatever the order of the decode table.
 */
module Opcodes {
  import opened Bytes
  import opened Isa
  import opened Cpu
  import opened Kinds
  import opened DecodeTable
  import opened Assembler
  import opened Fields
  import opened OpcodeRows

  /** An instruction of two words has imm for its second. */
  predicate SecondWord(i: Insn, imm: word) {
    Size(i) == 2 ==> imm == Operand(i)
  }

  // ----- what a row decodes is spelled as the manual has it -----

  lemma TwoBack(k: nat, w: bv16, imm: word)
    requires k in {6, 7, 8, 9, 10, 11, 12, 13, 59} && Matches(Row(k), w)
    ensures var i := Decode(Row(k).code, w, imm); Spelled(w, i) && SecondWord(i, imm)
  {
    hide Row, Matches, Decode, Spelled;
    var i := Decode(Row(k).code, w, imm);
    if k == 6 {
      Shape6(w, imm);
      Row6(w, imm, i);
    } else if k == 7 {
      Shape7(w, imm);
      Row7(w, imm, i);
    } else if k == 8 {
      Shape8(w, imm);
      Row8(w, imm, i);
    } else if k == 9 {
      Shape9(w, imm);
      Row9(w, imm, i);
    } else if k == 10 {
      Shape10(w, imm);
      Row10(w, imm, i);
    } else if k == 11 {
      Shape11(w, imm);
      Row11(w, imm, i);
    } else if k == 12 {
      Shape12(w, imm);
      Row12(w, imm, i);
    } else if k == 13 {
      Shape13(w, imm);
      Row13(w, imm, i);
    } else {
      Shape59(w, imm);
      Row59(w, imm, i);
    }
  }

  lemma OneBack(k: nat, w: bv16, imm: word)
    requires k in {26, 33, 34, 35, 36, 37, 38, 39, 40, 42, 23, 30} && Matches(Row(k), w)
    ensures var i := Decode(Row(k).code, w, imm); Spelled(w, i) && SecondWord(i, imm)
  {
    hide Row, Matches, Decode, Spelled;
    var i := Decode(Row(k).code, w, imm);
    if k == 26 {
      Shape26(w, imm);
      Row26(w, imm, i);
    } else if k == 33 {
      Shape33(w, imm);
      Row33(w, imm, i);
    } else if k == 34 {
      Shape34(w, imm);
      Row34(w, imm, i);
    } else if k == 35 {
      Shape35(w, imm);
      Row35(w, imm, i);
    } else if k == 36 {
      Shape36(w, imm);
      Row36(w, imm, i);
    } else if k == 37 {
      Shape37(w, imm);
      Row37(w, imm, i);
    } else if k == 38 {
      Shape38(w, imm);
      Row38(w, imm, i);
    } else if k == 39 {
      Shape39(w, imm);
      Row39(w, imm, i);
    } else if k == 40 {
      Shape40(w, imm);
      Row40(w, imm, i);
    } else if k == 42 {
      Shape42(w, imm);
      Row42(w, imm, i);
    } else if k == 23 {
      Shape23(w, imm);
      Row23(w, imm, i);
    } else {
      Shape30(w, imm);
      Row30(w, imm, i);
    }
  }

  lemma LongBack(k: nat, w: bv16, imm: word)
    requires k in {20, 27, 44, 45} && Matches(Row(k), w)
    ensures var i := Decode(Row(k).code, w, imm); Spelled(w, i) && SecondWord(i, imm)
  {
    hide Row, Matches, Decode, Spelled;
    var i := Decode(Row(k).code, w, imm);
    if k == 20 {
      Shape20(w, imm);
      Row20(w, imm, i);
    } else if k == 27 {
      Shape27(w, imm);
      Row27(w, imm, i);
    } else if k == 44 {
      Shape44(w, imm);
      Row44(w, imm, i);
    } else {
      Shape45(w, imm);
      Row45(w, imm, i);
    }
  }

  lemma PointerOf(w: bv16)
    ensures !YzPointer(w).PtrX?
  {
    hide Field;
  }

  lemma LdStBack(k: nat, w: bv16, imm: word)
    requires k in {18, 19, 21, 22, 24, 25, 28, 29, 31, 32} && Matches(Row(k), w)
    ensures var i := Decode(Row(k).code, w, imm); Spelled(w, i) && SecondWord(i, imm)
  {
    hide Row, Matches, Decode, Spelled, Field, WordBit, D84Of, YzPointer;
    LowTwo(w);
    OneIff(w, 12);
    OneIff(w, 3);
    PointerOf(w);
    var i := Decode(Row(k).code, w, imm);
    if k == 18 {
      Shape18(w, imm);
      Row18(w, imm, i);
    } else if k == 19 {
      Shape19(w, imm);
      Row19(w, imm, i);
    } else if k == 21 {
      Shape21(w, imm);
      Row21(w, imm, i);
    } else if k == 22 {
      Shape22(w, imm);
      Row22(w, imm, i);
    } else if k == 24 {
      Shape24(w, imm);
      Row24(w, imm, i);
    } else if k == 25 {
      Shape25(w, imm);
      Row25(w, imm, i);
    } else if k == 28 {
      Shape28(w, imm);
      Row28(w, imm, i);
    } else if k == 29 {
      Shape29(w, imm);
      Row29(w, imm, i);
    } else if k == 31 {
      Shape31(w, imm);
      Row31(w, imm, i);
    } else {
      Shape32(w, imm);
      Row32(w, imm, i);
    }
  }

  lemma ImmBack(k: nat, w: bv16, imm: word)
    requires k in {14, 15, 16, 17, 63} && Matches(Row(k), w)
    ensures var i := Decode(Row(k).code, w, imm); Spelled(w, i) && SecondWord(i, imm)
  {
    hide Row, Matches, Decode, Spelled;
    var i := Decode(Row(k).code, w, imm);
    if k == 14 {
      Shape14(w, imm);
      Row14(w, imm, i);
    } else if k == 15 {
      Shape15(w, imm);
      Row15(w, imm, i);
    } else if k == 16 {
      Shape16(w, imm);
      Row16(w, imm, i);
    } else if k == 17 {
      Shape17(w, imm);
      Row17(w, imm, i);
    } else {
      Shape63(w, imm);
      Row63(w, imm, i);
    }
  }

  lemma ProdBack(k: nat, w: bv16, imm: word)
    requires k in {0, 1, 2, 3, 4, 5, 55, 56} && Matches(Row(k), w)
    ensures var i := Decode(Row(k).code, w, imm); Spelled(w, i) && SecondWord(i, imm)
  {
    hide Row, Matches, Decode, Spelled;
    var i := Decode(Row(k).code, w, imm);
    if k == 0 {
      Shape0(w, imm);
      Row0(w, imm, i);
    } else if k == 1 {
      Shape1(w, imm);
      Row1(w, imm, i);
    } else if k == 2 {
      Shape2(w, imm);
      Row2(w, imm, i);
    } else if k == 3 {
      Shape3(w, imm);
      Row3(w, imm, i);
    } else if k == 4 {
      Shape4(w, imm);
      Row4(w, imm, i);
    } else if k == 5 {
      Shape5(w, imm);
      Row5(w, imm, i);
    } else if k == 55 {
      Shape55(w, imm);
      Row55(w, imm, i);
    } else {
      Shape56(w, imm);
      Row56(w, imm, i);
    }
  }

  lemma MiscBack(k: nat, w: bv16, imm: word)
    requires k in {41, 43, 46, 47, 48} && Matches(Row(k), w)
    ensures var i := Decode(Row(k).code, w, imm); Spelled(w, i) && SecondWord(i, imm)
  {
    hide Row, Matches, Decode, Spelled;
    var i := Decode(Row(k).code, w, imm);
    if k == 41 {
      Shape41(w, imm);
      Row41(w, imm, i);
    } else if k == 43 {
      Shape43(w, imm);
      Row43(w, imm, i);
    } else if k == 46 {
      Shape46(w, imm);
      Row46(w, imm, i);
    } else if k == 47 {
      Shape47(w, imm);
      Row47(w, imm, i);
    } else {
      Shape48(w, imm);
      Row48(w, imm, i);
    }
  }

  lemma IoBack(k: nat, w: bv16, imm: word)
    requires k in {57, 58, 60, 61, 65, 66, 67} && Matches(Row(k), w)
    ensures var i := Decode(Row(k).code, w, imm); Spelled(w, i) && SecondWord(i, imm)
  {
    hide Row, Matches, Decode, Spelled;
    var i := Decode(Row(k).code, w, imm);
    if k == 57 {
      Shape57(w, imm);
      Row57(w, imm, i);
    } else if k == 58 {
      Shape58(w, imm);
      Row58(w, imm, i);
    } else if k == 60 {
      Shape60(w, imm);
      Row60(w, imm, i);
    } else if k == 61 {
      Shape61(w, imm);
      Row61(w, imm, i);
    } else if k == 65 {
      Shape65(w, imm);
      Row65(w, imm, i);
    } else if k == 66 {
      Shape66(w, imm);
      Row66(w, imm, i);
    } else {
      Shape67(w, imm);
      Row67(w, imm, i);
    }
  }

  lemma RelBack(k: nat, w: bv16, imm: word)
    requires k in {62, 64} && Matches(Row(k), w)
    ensures var i := Decode(Row(k).code, w, imm); Spelled(w, i) && SecondWord(i, imm)
  {
    hide Row, Matches, Decode, Spelled;
    var i := Decode(Row(k).code, w, imm);
    if k == 62 {
      Shape62(w, imm);
      Row62(w, imm, i);
    } else {
      Shape64(w, imm);
      Row64(w, imm, i);
    }
  }

  function RefusedWordOf(k: nat): (w: bv16) {
    if k == 49 then 0x9588 else if k == 50 then 0x9598 else if k == 51 then 0x95a8
    else if k == 53 then 0x95e8 else 0x95f8
  }

  lemma RefusedRow(k: nat)
    requires k in {49, 50, 51, 53, 54}
    ensures Row(k).mask == 0xffff && Row(k).pattern == RefusedWordOf(k) && Row(k).code == HUnimp
  {
  }

  lemma WholeMask(w: bv16)
    ensures w & 0xffff == w
  {
  }

  lemma UnimpShape(k: nat, w: bv16)
    requires k in {49, 50, 51, 53, 54}
    ensures Matches(Row(k), w) <==> w == RefusedWordOf(k)
  {
    hide Row, RefusedWordOf;
    RefusedRow(k);
    WholeMask(w);
  }

  lemma UnimpReads(k: nat, w: bv16, imm: word)
    requires k in {49, 50, 51, 53, 54}
    ensures Decode(Row(k).code, w, imm) == Unimplemented
  {
    hide Row;
    RefusedRow(k);
  }

  lemma LpmShape(w: bv16)
    ensures Matches(Row(52), w) <==> w == 0x95c8 || w == 0x95d8
  {
  }

  lemma LpmReads(w: bv16, imm: word)
    ensures Decode(Row(52).code, w, imm) == Lpm(0, Field(w, 4, 4) == 1, false)
  {
    hide Field;
  }

  lemma LpmBit(w: bv16)
    requires w == 0x95c8 || w == 0x95d8
    ensures (Field(w, 4, 4) == 1) == (w == 0x95d8)
  {
    hide Field;
    OneIff(w, 4);
  }

  lemma AliasBack(k: nat, w: bv16, imm: word)
    requires 49 <= k <= 54 && Matches(Row(k), w)
    ensures var i := Decode(Row(k).code, w, imm); Alias(i, w) && SecondWord(i, imm)
  {
    hide Field, Row, Matches, Decode;
    if k == 52 {
      LpmShape(w);
      LpmReads(w, imm);
      LpmBit(w);
    } else {
      UnimpShape(k, w);
      UnimpReads(k, w, imm);
    }
  }

  lemma Back(k: nat, w: bv16, imm: word)
    requires k < ROWS && Matches(Row(k), w)
    ensures var i := Decode(Row(k).code, w, imm); Spells(i, w) && SecondWord(i, imm)
  {
    hide Row, Matches, Decode, Opcode, Agrees, Alias, WordOf;
    var i := Decode(Row(k).code, w, imm);
    if k in {6, 7, 8, 9, 10, 11, 12, 13, 59} {
      TwoBack(k, w, imm);
    } else if k in {26, 33, 34, 35, 36, 37, 38, 39, 40, 42, 23, 30} {
      OneBack(k, w, imm);
    } else if k in {20, 27, 44, 45} {
      LongBack(k, w, imm);
    } else if k in {18, 19, 21, 22, 24, 25, 28, 29, 31, 32} {
      LdStBack(k, w, imm);
    } else if k in {14, 15, 16, 17, 63} {
      ImmBack(k, w, imm);
    } else if k in {0, 1, 2, 3, 4, 5, 55, 56} {
      ProdBack(k, w, imm);
    } else if k in {41, 43, 46, 47, 48} {
      MiscBack(k, w, imm);
    } else if k in {57, 58, 60, 61, 65, 66, 67} {
      IoBack(k, w, imm);
    } else if k in {62, 64} {
      RelBack(k, w, imm);
    } else {
      AliasBack(k, w, imm);
    }
    if Spelled(w, i) {
      AgreesIff(w, Opcode(i).value);
    }
  }

  // ----- what the manual spells is taken by a row -----

  lemma NotSpelled(w: bv16, i: Insn)
    requires Opcode(i).None?
    ensures !Spelled(w, i)
  {
    hide Opcode;
  }

  lemma TwoFore(w: bv16, imm: word, i: Insn)
    requires (i.Sub? || i.Add? || i.SkipEq? || i.Logic? || i.Mov?) && Spelled(w, i) && SecondWord(i, imm)
    ensures exists k: nat :: k < ROWS && Takes(k, w, imm, i)
  {
    hide Takes, Spelled;
    if i.Sub? && !i.store {
      Row6(w, imm, i);
      assert Takes(6, w, imm, i);
    } else if i.Sub? {
      Row7(w, imm, i);
      assert Takes(7, w, imm, i);
    } else if i.Add? {
      Row8(w, imm, i);
      assert Takes(8, w, imm, i);
    } else if i.SkipEq? {
      Row9(w, imm, i);
      assert Takes(9, w, imm, i);
    } else if i.Logic? && i.op == AndOp {
      Row10(w, imm, i);
      assert Takes(10, w, imm, i);
    } else if i.Logic? && i.op == XorOp {
      Row11(w, imm, i);
      assert Takes(11, w, imm, i);
    } else if i.Logic? {
      Row12(w, imm, i);
      assert Takes(12, w, imm, i);
    } else {
      Row13(w, imm, i);
      assert Takes(13, w, imm, i);
    }
  }

  lemma OneFore(w: bv16, imm: word, i: Insn)
    requires i.Pop? || i.Push? || i.Com? || i.Neg? || i.Swap? || i.Inc? || i.Shift? || i.Dec? || i.Lpm? || i.Xch?
    requires Spelled(w, i) && SecondWord(i, imm)
    ensures exists k: nat :: k < ROWS && Takes(k, w, imm, i)
  {
    hide Takes, Spelled;
    if i.Pop? {
      Row26(w, imm, i);
      assert Takes(26, w, imm, i);
    } else if i.Push? {
      Row33(w, imm, i);
      assert Takes(33, w, imm, i);
    } else if i.Com? {
      Row34(w, imm, i);
      assert Takes(34, w, imm, i);
    } else if i.Neg? {
      Row35(w, imm, i);
      assert Takes(35, w, imm, i);
    } else if i.Swap? {
      Row36(w, imm, i);
      assert Takes(36, w, imm, i);
    } else if i.Inc? {
      Row37(w, imm, i);
      assert Takes(37, w, imm, i);
    } else if i.Shift? && i.shift == Asr {
      Row38(w, imm, i);
      assert Takes(38, w, imm, i);
    } else if i.Shift? && i.shift == Lsr {
      Row39(w, imm, i);
      assert Takes(39, w, imm, i);
    } else if i.Shift? {
      Row40(w, imm, i);
      assert Takes(40, w, imm, i);
    } else if i.Dec? {
      Row42(w, imm, i);
      assert Takes(42, w, imm, i);
    } else if i.Lpm? {
      Row23(w, imm, i);
      assert Takes(23, w, imm, i);
    } else {
      Row30(w, imm, i);
      assert Takes(30, w, imm, i);
    }
  }

  lemma LongFore(w: bv16, imm: word, i: Insn)
    requires (i.Lds? || i.Sts? || i.Jmp? || i.Call?) && Spelled(w, i) && SecondWord(i, imm)
    ensures exists k: nat :: k < ROWS && Takes(k, w, imm, i)
  {
    hide Takes, Spelled;
    if i.Lds? {
      Row20(w, imm, i);
      assert Takes(20, w, imm, i);
    } else if i.Sts? {
      Row27(w, imm, i);
      assert Takes(27, w, imm, i);
    } else if i.Jmp? {
      Row44(w, imm, i);
      assert Takes(44, w, imm, i);
    } else {
      Row45(w, imm, i);
      assert Takes(45, w, imm, i);
    }
  }

  lemma LdStFore(w: bv16, imm: word, i: Insn)
    requires (i.LdSt?) && Spelled(w, i) && SecondWord(i, imm)
    ensures exists k: nat :: k < ROWS && Takes(k, w, imm, i)
  {
    hide Takes, Spelled;
    if i.ptr == PtrX && !i.mode.PreDec? && !i.store {
      Row24(w, imm, i);
      assert Takes(24, w, imm, i);
    } else if i.ptr == PtrX && !i.mode.PreDec? {
      Row31(w, imm, i);
      assert Takes(31, w, imm, i);
    } else if i.ptr == PtrX && !i.store {
      Row25(w, imm, i);
      assert Takes(25, w, imm, i);
    } else if i.ptr == PtrX {
      Row32(w, imm, i);
      assert Takes(32, w, imm, i);
    } else if i.mode.Disp? && !i.store {
      Row18(w, imm, i);
      assert Takes(18, w, imm, i);
    } else if i.mode.Disp? {
      Row19(w, imm, i);
      assert Takes(19, w, imm, i);
    } else if i.mode.PostInc? && !i.store {
      Row21(w, imm, i);
      assert Takes(21, w, imm, i);
    } else if i.mode.PostInc? {
      Row28(w, imm, i);
      assert Takes(28, w, imm, i);
    } else if !i.store {
      Row22(w, imm, i);
      assert Takes(22, w, imm, i);
    } else {
      Row29(w, imm, i);
      assert Takes(29, w, imm, i);
    }
  }

  lemma ImmFore(w: bv16, imm: word, i: Insn)
    requires (i.SubImm? || i.LogicImm? || i.Ldi?) && Spelled(w, i) && SecondWord(i, imm)
    ensures exists k: nat :: k < ROWS && Takes(k, w, imm, i)
  {
    hide Takes, Spelled;
    if i.SubImm? && !i.store {
      Row14(w, imm, i);
      assert Takes(14, w, imm, i);
    } else if i.SubImm? {
      Row15(w, imm, i);
      assert Takes(15, w, imm, i);
    } else if i.LogicImm? && i.op == OrOp {
      Row16(w, imm, i);
      assert Takes(16, w, imm, i);
    } else if i.LogicImm? && i.op == AndOp {
      Row17(w, imm, i);
      assert Takes(17, w, imm, i);
    } else if i.Ldi? {
      Row63(w, imm, i);
      assert Takes(63, w, imm, i);
    } else {
      NotSpelled(w, i);
    }
  }

  lemma ProdFore(w: bv16, imm: word, i: Insn)
    requires (i.Nop? || i.Movw? || i.Adiw? || i.Sbiw? || i.Mul?) && Spelled(w, i) && SecondWord(i, imm)
    ensures exists k: nat :: k < ROWS && Takes(k, w, imm, i)
  {
    hide Takes, Spelled;
    if i.Nop? {
      Row0(w, imm, i);
      assert Takes(0, w, imm, i);
    } else if i.Movw? {
      Row1(w, imm, i);
      assert Takes(1, w, imm, i);
    } else if i.Adiw? {
      Row55(w, imm, i);
      assert Takes(55, w, imm, i);
    } else if i.Sbiw? {
      Row56(w, imm, i);
      assert Takes(56, w, imm, i);
    } else if i.Mul? && i.signedD && i.signedR && !i.fractional {
      Row2(w, imm, i);
      assert Takes(2, w, imm, i);
    } else if i.Mul? && i.signedD && !i.fractional {
      Row3(w, imm, i);
      assert Takes(3, w, imm, i);
    } else if i.Mul? && i.signedD {
      Row5(w, imm, i);
      assert Takes(5, w, imm, i);
    } else if i.Mul? && !i.signedR && i.fractional {
      Row4(w, imm, i);
      assert Takes(4, w, imm, i);
    } else if i.Mul? && !i.signedR {
      Row59(w, imm, i);
      assert Takes(59, w, imm, i);
    } else {
      NotSpelled(w, i);
    }
  }

  lemma MiscFore(w: bv16, imm: word, i: Insn)
    requires (i.SetFlag? || i.Des? || i.Ret? || i.IndJump?) && Spelled(w, i) && SecondWord(i, imm)
    ensures exists k: nat :: k < ROWS && Takes(k, w, imm, i)
  {
    hide Takes, Spelled;
    if i.SetFlag? {
      Row41(w, imm, i);
      assert Takes(41, w, imm, i);
    } else if i.Des? {
      Row43(w, imm, i);
      assert Takes(43, w, imm, i);
    } else if i.Ret? && !i.reti {
      Row46(w, imm, i);
      assert Takes(46, w, imm, i);
    } else if i.Ret? {
      Row48(w, imm, i);
      assert Takes(48, w, imm, i);
    } else {
      Row47(w, imm, i);
      assert Takes(47, w, imm, i);
    }
  }

  lemma IoFore(w: bv16, imm: word, i: Insn)
    requires i.IoBit? || i.SkipIo? || i.In? || i.Out? || i.Bld? || i.Bst? || i.SkipBit?
    requires Spelled(w, i) && SecondWord(i, imm)
    ensures exists k: nat :: k < ROWS && Takes(k, w, imm, i)
  {
    hide Takes, Spelled;
    if i.IoBit? {
      Row57(w, imm, i);
      assert Takes(57, w, imm, i);
    } else if i.SkipIo? {
      Row58(w, imm, i);
      assert Takes(58, w, imm, i);
    } else if i.In? {
      Row60(w, imm, i);
      assert Takes(60, w, imm, i);
    } else if i.Out? {
      Row61(w, imm, i);
      assert Takes(61, w, imm, i);
    } else if i.Bld? {
      Row65(w, imm, i);
      assert Takes(65, w, imm, i);
    } else if i.Bst? {
      Row66(w, imm, i);
      assert Takes(66, w, imm, i);
    } else {
      Row67(w, imm, i);
      assert Takes(67, w, imm, i);
    }
  }

  lemma RelFore(w: bv16, imm: word, i: Insn)
    requires (i.RelJump? || i.Branch?) && Spelled(w, i) && SecondWord(i, imm)
    ensures exists k: nat :: k < ROWS && Takes(k, w, imm, i)
  {
    hide Takes, Spelled;
    if i.RelJump? {
      Row62(w, imm, i);
      assert Takes(62, w, imm, i);
    } else {
      Row64(w, imm, i);
      assert Takes(64, w, imm, i);
    }
  }

  lemma Fore(w: bv16, imm: word, i: Insn)
    requires Spelled(w, i) && SecondWord(i, imm)
    ensures exists k: nat :: k < ROWS && Takes(k, w, imm, i)
  {
    hide Takes, Spelled, SecondWord;
    if i.Unimplemented? {
      NotSpelled(w, i);
    } else if i.Sub? || i.Add? || i.SkipEq? || i.Logic? || i.Mov? {
      TwoFore(w, imm, i);
    } else if i.Pop? || i.Push? || i.Com? || i.Neg? || i.Swap? || i.Inc? || i.Shift? || i.Dec? || i.Lpm? || i.Xch? {
      OneFore(w, imm, i);
    } else if i.Lds? || i.Sts? || i.Jmp? || i.Call? {
      LongFore(w, imm, i);
    } else if i.LdSt? {
      LdStFore(w, imm, i);
    } else if i.SubImm? || i.LogicImm? || i.Ldi? {
      ImmFore(w, imm, i);
    } else if i.Nop? || i.Movw? || i.Adiw? || i.Sbiw? || i.Mul? {
      ProdFore(w, imm, i);
    } else if i.SetFlag? || i.Des? || i.Ret? || i.IndJump? {
      MiscFore(w, imm, i);
    } else if i.IoBit? || i.SkipIo? || i.In? || i.Out? || i.Bld? || i.Bst? || i.SkipBit? {
      IoFore(w, imm, i);
    } else {
      RelFore(w, imm, i);
    }
  }

  lemma AliasFore(w: bv16, imm: word, i: Insn)
    requires Alias(i, w)
    ensures exists k: nat :: k < ROWS && Takes(k, w, imm, i)
  {
    hide Field, Row, Matches, Decode;
    if i.Lpm? {
      LpmShape(w);
      LpmReads(w, imm);
      LpmBit(w);
      assert Takes(52, w, imm, i);
    } else {
      var k := if w == 0x9588 then 49 else if w == 0x9598 then 50 else if w == 0x95a8 then 51
               else if w == 0x95e8 then 53 else 54;
      UnimpShape(k, w);
      UnimpReads(k, w, imm);
      assert Takes(k, w, imm, i);
    }
  }

  // ----- the decoder -----

  /** The table reads w as i exactly when the manual spells i so. */
  lemma DecodesIff(w: bv16, imm: word, i: Insn)
    ensures Slot(w) < ROWS && Decode(Row(Slot(w)).code, w, imm) == i <==> Spells(i, w) && SecondWord(i, imm)
  {
    hide Slot, Row, Matches, Decode, Opcode, Agrees, Alias, WordOf, SecondWord;
    if Slot(w) < ROWS {
      MatchesIffSlot(w, Slot(w));
      Back(Slot(w), w, imm);
    }
    if Spells(i, w) && SecondWord(i, imm) {
      if Alias(i, w) {
        AliasFore(w, imm, i);
      } else {
        AgreesIff(w, Opcode(i).value);
        Fore(w, imm, i);
      }
      var k: nat :| k < ROWS && Takes(k, w, imm, i);
      MatchesIffSlot(w, k);
    }
  }

  // ----- fetching -----

  /** Flash holds the manual's words for i at pc. */
  predicate HoldsAt(flash: Flash, pc: u32, i: Insn) {
    && pc < FLASH_SIZE && Spells(i, flash[pc])
    && (Size(i) == 2 ==> pc + 1 < FLASH_SIZE && flash[pc + 1] == NumberWord(Operand(i)))
  }

  /** Instruction i is fetched at pc exactly when flash holds the manual's words for it there. */
  lemma FetchIff(rom: Rom, pc: u32, i: Insn)
    requires SameRows(rom.table)
    ensures Fetch(rom, pc) == Ok(i) <==> HoldsAt(rom.flash, pc, i)
  {
    hide Slot, Row, Decode, Lookup, FullWord, Spells, Size, Operand, NumberWord, SameRows, WellLaid, Layout;
    if pc < FLASH_SIZE {
      var w := rom.flash[pc];
      var k := Slot(w);
      LookupIsSlot(rom.table, w);
      var imm := if pc + 1 < FLASH_SIZE then FullWord(rom.flash[pc + 1]) else 0;
      DecodesIff(w, 0, i);
      DecodesIff(w, imm, i);
      if pc + 1 < FLASH_SIZE {
        SecondIff(rom.flash[pc + 1], Operand(i));
      }
      if k < ROWS {
        SizeOfRow(k, w, 0);
        SizeOfRow(k, w, imm);
      }
    }
  }

  /** Fetching aborts for a word that begins no instruction, and for an address, or a second word, outside flash. */
  lemma FetchAbortsIff(rom: Rom, pc: u32)
    requires SameRows(rom.table)
    ensures Fetch(rom, pc) == Abort(IllegalWord) <==> pc < 0x80_0000 && forall i: Insn :: !Spells(i, rom.flash[pc])
    ensures Fetch(rom, pc) == Abort(PcOutOfRange)
       <==> pc >= 0x80_0000
            || (pc == 0x7f_ffff && exists i: Insn :: Spells(i, rom.flash[pc]) && Size(i) == 2)
    ensures Fetch(rom, pc).Abort? ==> Fetch(rom, pc).why in {IllegalWord, PcOutOfRange}
  {
    hide Slot, Row, Decode, Lookup, FullWord, Spells, Size, Operand, SameRows, WellLaid, Layout, SecondWord;
    if pc < FLASH_SIZE {
      var w := rom.flash[pc];
      LookupIsSlot(rom.table, w);
      SlotSpells(w);
    }
  }

  /** The row a word belongs to says whether the manual has an instruction for it, and of what length. */
  lemma SlotSpells(w: bv16)
    ensures Slot(w) < ROWS <==> exists i: Insn :: Spells(i, w)
    ensures Slot(w) < ROWS ==> (Row(Slot(w)).imm16 <==> exists i: Insn :: Spells(i, w) && Size(i) == 2)
  {
    hide Slot, Row, Decode, Spells, Size, Operand;
    forall i: Insn | Spells(i, w)
      ensures Slot(w) < ROWS && (Row(Slot(w)).imm16 <==> Size(i) == 2)
    {
      SpelledSize(w, i);
    }
    if Slot(w) < ROWS {
      DecodesIff(w, 0, Decode(Row(Slot(w)).code, w, 0));
    }
  }

  lemma SpelledSize(w: bv16, i: Insn)
    requires Spells(i, w)
    ensures Slot(w) < ROWS && (Row(Slot(w)).imm16 <==> Size(i) == 2)
  {
    hide Slot, Row, Decode, Spells, Size, Operand;
    DecodesIff(w, Operand(i), i);
    SizeOfRow(Slot(w), w, Operand(i));
  }

  lemma SecondIff(v: bv16, x: word)
    ensures FullWord(v) == x <==> v == NumberWord(x)
  {
    hide Field, NumberWord;
    NumberIff(v, x);
  }

  lemma SizeOfRow(k: nat, w: bv16, imm: word)
    requires k < ROWS
    ensures Size(Decode(Row(k).code, w, imm)) == if Row(k).imm16 then 2 else 1
  {
    hide Row, Decode, Size, Layout;
    RowsWellLaid(k);
    DecodeSize(Row(k).code, w, imm);
  }

  lemma RefusedHasNone(i: Insn, w: bv16)
    requires Alias(i, w) && Opcode(i).None?
    ensures i.Unimplemented?
  {
  }

  lemma LongHasOne(i: Insn, w: bv16)
    requires Alias(i, w)
    ensures Size(i) == 1
  {
  }

  /** Flash from pc on holds the given words. */
  predicate Stands(flash: Flash, pc: u32, ws: seq<bv16>) {
    pc + |ws| <= FLASH_SIZE && flash[pc..pc + |ws|] == ws
  }

  /** Assembling an instruction and fetching it gives it back. */
  lemma FetchEncoded(rom: Rom, pc: u32, i: Insn)
    requires SameRows(rom.table) && Encode(i) != [] && Stands(rom.flash, pc, Encode(i))
    ensures Fetch(rom, pc) == Ok(i)
  {
    hide Fetch, SameRows, Opcode, WordOf, NumberWord, Operand, Alias;
    var ws := Encode(i);
    assert rom.flash[pc] == ws[0];
    if Size(i) == 2 {
      assert rom.flash[pc + 1] == ws[1];
    }
    FetchIff(rom, pc, i);
  }

  /** Fetching an instruction and assembling it gives its words back, but for LPM and ELPM without operands and for the
      instructions the emulator refuses. */
  lemma FetchedEncodes(rom: Rom, pc: u32, i: Insn)
    requires SameRows(rom.table) && Fetch(rom, pc) == Ok(i)
    ensures pc < FLASH_SIZE && (Alias(i, rom.flash[pc]) || (Encode(i) != [] && Stands(rom.flash, pc, Encode(i))))
  {
    hide Fetch, SameRows, Opcode, WordOf, NumberWord, Operand, Alias;
    FetchIff(rom, pc, i);
  }
}
