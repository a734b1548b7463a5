/**
 Exactly when a step aborts, read off the raw words of flash.

 The assertions of emu.h and of emulate1 that are not listed here (bit-select,
 word alignment, flag overlap, flash range of LPM, memory bounds) never fail:
 they are proved in `Machine`, where each appears as an assertion, a
 precondition or an index.
 */
module Aborts {
  import opened Bytes
  import opened Isa
  import opened Cpu
  import opened Kinds
  import opened DecodeTable
  import opened Steps

  /** Words that decode but are refused. */
  predicate RefusedWord(w: bv16, pc22: bool) {
    || Unsupported(w)
    || (w & 0xfeff == 0x9419 && !pc22)  // EIJMP, EICALL
    || w & 0xffed == 0x91e5             // LPM, ELPM into r30 or r31 through Z+
    || OverlappingPointer(w)
  }

  /** SLEEP, BREAK, WDR, SPM, SPM Z+. */
  predicate Unsupported(w: bv16) {
    w == 0x9588 || w == 0x9598 || w == 0x95a8 || w == 0x95e8 || w == 0x95f8
  }

  /** Loads and stores of a pointer's own bytes through that pointer, with update: X+, -X, Y+, -Y, Z+, -Z. */
  predicate OverlappingPointer(w: bv16) {
    var op := w & 0xfdef;
    op == 0x91ad || op == 0x91ae || op == 0x91c9 || op == 0x91ca || op == 0x91e1 || op == 0x91e2
  }

  // ----- fields as bits -----

  lemma D84Bits(w: bv16)
    ensures Field(w, 8, 4) == Num(WordBit(w, 4)) + 2 * Num(WordBit(w, 5)) + 4 * Num(WordBit(w, 6))
                              + 8 * Num(WordBit(w, 7)) + 16 * Num(WordBit(w, 8))
  {
    hide WordBit, Span;
    assert Field(w, 8, 8) == Num(WordBit(w, 8));
    assert Field(w, 8, 7) == Num(WordBit(w, 7)) + 2 * Field(w, 8, 8);
    assert Field(w, 8, 6) == Num(WordBit(w, 6)) + 2 * Field(w, 8, 7);
    assert Field(w, 8, 5) == Num(WordBit(w, 5)) + 2 * Field(w, 8, 6);
    assert Field(w, 8, 4) == Num(WordBit(w, 4)) + 2 * Field(w, 8, 5);
  }

  /** The destination is the given register pair's low or high byte. */
  lemma PairWord(w: bv16)
    ensures D84Of(w) == 26 || D84Of(w) == 27 <==> w & 0x01e0 == 0x01a0
    ensures D84Of(w) == 28 || D84Of(w) == 29 <==> w & 0x01e0 == 0x01c0
    ensures D84Of(w) == 30 || D84Of(w) == 31 <==> w & 0x01e0 == 0x01e0
  {
    hide Field, Span;
    D84Bits(w);
  }

  lemma ModeBits(w: bv16)
    ensures Field(w, 1, 0) == Num(WordBit(w, 0)) + 2 * Num(WordBit(w, 1))
    ensures Field(w, 12, 12) == Num(WordBit(w, 12)) && Field(w, 3, 3) == Num(WordBit(w, 3))
    ensures Field(w, 4, 4) == Num(WordBit(w, 4)) && Field(w, 0, 0) == Num(WordBit(w, 0))
  {
    hide WordBit, Span;
    assert Field(w, 1, 1) == Num(WordBit(w, 1));
  }

  // ----- which handlers can refuse -----

  predicate MayRefuse(h: Handler) {
    IsLdst(h) || h.HElpmz? || h.HEicalljump? || h.HUnimp?
  }

  lemma AluAccepts(h: Handler, w: bv16, imm: word, pc22: bool)
    requires IsAlu(h)
    ensures Faults(Decode(h, w, imm), pc22).None?
  {
    hide Decode;
    AluKind(h, w, imm);
  }

  lemma OthersAccept(h: Handler, w: bv16, imm: word, pc22: bool)
    requires !MayRefuse(h) && !IsAlu(h)
    ensures Faults(Decode(h, w, imm), pc22).None?
  {
    hide Field, BitOf, BranchOffset, JumpOffset, HighOf, LowPortOf, R9Of, D84Of;
  }

  lemma XRefuses(h: Handler, w: bv16, imm: word, pc22: bool)
    requires h.HLdx? || h.HStx?
    ensures Faults(Decode(h, w, imm), pc22).Some? <==>
      (Field(w, 1, 0) == 1 || Field(w, 1, 0) == 2) && (D84Of(w) == 26 || D84Of(w) == 27)
  {
    hide Field, D84Of;
  }

  lemma YzRefuses(h: Handler, w: bv16, imm: word, pc22: bool)
    requires h.HLdyz? || h.HStyz?
    ensures Faults(Decode(h, w, imm), pc22).Some? <==>
      var r := if Field(w, 3, 3) == 1 then 28 else 30;
      Field(w, 12, 12) != 0 && (Field(w, 1, 0) == 1 || Field(w, 1, 0) == 2) && (D84Of(w) == r || D84Of(w) == r + 1)
  {
    hide Field, D84Of;
  }

  /** The row's handler refuses word w exactly when the word is on the list. */
  predicate RowAgrees(k: nat, w: bv16, imm: word, pc22: bool)
    requires k < ROWS
  {
    Faults(Decode(Row(k).code, w, imm), pc22).Some? <==> RefusedWord(w, pc22)
  }

  lemma XWord(k: nat, w: bv16, pc22: bool)
    requires k in {24, 25, 31, 32} && Matches(Row(k), w)
    ensures Row(k).code.HLdx? || Row(k).code.HStx?
    ensures RefusedWord(w, pc22) <==> WordBit(w, 0) != WordBit(w, 1) && w & 0x01e0 == 0x01a0
  {
  }

  lemma XRows(k: nat, w: bv16, imm: word, pc22: bool)
    requires k in {24, 25, 31, 32} && Matches(Row(k), w)
    ensures RowAgrees(k, w, imm, pc22)
  {
    hide Decode, Faults, Field, Span, D84Of, Row, RefusedWord, WordBit, Matches;
    XWord(k, w, pc22);
    XRefuses(Row(k).code, w, imm, pc22);
    PairWord(w);
    ModeBits(w);
  }

  lemma YzWord(k: nat, w: bv16, pc22: bool)
    requires k in {21, 22, 28, 29} && Matches(Row(k), w)
    ensures Row(k).code.HLdyz? || Row(k).code.HStyz?
    ensures WordBit(w, 12) && WordBit(w, 0) != WordBit(w, 1)
    ensures RefusedWord(w, pc22) <==> w & 0x01e0 == if WordBit(w, 3) then 0x01c0 else 0x01e0
  {
  }

  lemma YzRows(k: nat, w: bv16, imm: word, pc22: bool)
    requires k in {21, 22, 28, 29} && Matches(Row(k), w)
    ensures RowAgrees(k, w, imm, pc22)
  {
    hide Decode, Faults, Field, Span, D84Of, Row, RefusedWord, WordBit, Matches;
    YzWord(k, w, pc22);
    YzRefuses(Row(k).code, w, imm, pc22);
    PairWord(w);
    ModeBits(w);
  }

  lemma DispWord(k: nat, w: bv16, pc22: bool)
    requires k in {18, 19} && Matches(Row(k), w)
    ensures !WordBit(w, 12) && !RefusedWord(w, pc22) && (Row(k).code.HLdyz? || Row(k).code.HStyz?)
  {
  }

  lemma DispRows(k: nat, w: bv16, imm: word, pc22: bool)
    requires k in {18, 19} && Matches(Row(k), w)
    ensures RowAgrees(k, w, imm, pc22)
  {
    hide Decode, Faults, Field, Span, D84Of, RefusedWord, Row, WordBit, Matches;
    DispWord(k, w, pc22);
    YzRefuses(Row(k).code, w, imm, pc22);
    ModeBits(w);
  }

  lemma LpmRow(w: bv16, imm: word, pc22: bool)
    requires Matches(Row(23), w)
    ensures RowAgrees(23, w, imm, pc22)
  {
    hide Field, Span, D84Of;
    PairWord(w);
    ModeBits(w);
  }

  lemma IndirectRow(w: bv16, imm: word, pc22: bool)
    requires Matches(Row(47), w)
    ensures RowAgrees(47, w, imm, pc22)
  {
    hide Field, Span;
    ModeBits(w);
  }

  lemma UnimpWord(k: nat, w: bv16)
    requires k in {49, 50, 51, 53, 54} && Matches(Row(k), w)
    ensures Row(k).code == HUnimp && Unsupported(w)
  {
  }

  lemma UnimpRows(k: nat, w: bv16, imm: word, pc22: bool)
    requires k in {49, 50, 51, 53, 54} && Matches(Row(k), w)
    ensures RowAgrees(k, w, imm, pc22)
  {
    hide Row, Matches, Unsupported;
    UnimpWord(k, w);
  }

  const REFUSING: set<nat> := {18, 19, 21, 22, 23, 24, 25, 28, 29, 31, 32, 47, 49, 50, 51, 53, 54}

  lemma RowsAcceptTo20(k: nat)
    requires k < 20 && k !in REFUSING
    ensures !MayRefuse(Row(k).code)
  {
  }

  lemma RowsAcceptTo40(k: nat)
    requires 20 <= k < 40 && k !in REFUSING
    ensures !MayRefuse(Row(k).code)
  {
  }

  lemma RowsAcceptTo56(k: nat)
    requires 40 <= k < 56 && k !in REFUSING
    ensures !MayRefuse(Row(k).code)
  {
  }

  lemma RowsAcceptTo68(k: nat)
    requires 56 <= k < 68 && k !in REFUSING
    ensures !MayRefuse(Row(k).code)
  {
  }

  lemma RefusedSlots(w: bv16, pc22: bool)
    requires RefusedWord(w, pc22)
    ensures Slot(w) in REFUSING
  {
  }

  lemma OtherRows(k: nat, w: bv16, imm: word, pc22: bool)
    requires k < ROWS && Slot(w) == k && k !in REFUSING
    ensures RowAgrees(k, w, imm, pc22)
  {
    hide Row, Slot, RefusedWord, MayRefuse, Decode, Faults, IsAlu;
    if k < 20 {
      RowsAcceptTo20(k);
    } else if k < 40 {
      RowsAcceptTo40(k);
    } else if k < 56 {
      RowsAcceptTo56(k);
    } else {
      RowsAcceptTo68(k);
    }
    if IsAlu(Row(k).code) {
      AluAccepts(Row(k).code, w, imm, pc22);
    } else {
      OthersAccept(Row(k).code, w, imm, pc22);
    }
    if RefusedWord(w, pc22) {
      RefusedSlots(w, pc22);
    }
  }

  lemma RefusedIff(w: bv16, imm: word, pc22: bool)
    requires Slot(w) < ROWS
    ensures RowAgrees(Slot(w), w, imm, pc22)
  {
    hide Row, Slot, RefusedWord, Decode, Faults, RowAgrees, Matches;
    var k := Slot(w);
    MatchesIffSlot(w, k);
    if k !in REFUSING {
      OtherRows(k, w, imm, pc22);
    } else if k in {18, 19} {
      DispRows(k, w, imm, pc22);
    } else if k in {21, 22, 28, 29} {
      YzRows(k, w, imm, pc22);
    } else if k in {24, 25, 31, 32} {
      XRows(k, w, imm, pc22);
    } else if k == 23 {
      LpmRow(w, imm, pc22);
    } else if k == 47 {
      IndirectRow(w, imm, pc22);
    } else {
      UnimpRows(k, w, imm, pc22);
    }
  }

  /** The instruction at pc skips the next one. */
  predicate SkipTaken(rom: Rom, s: State) {
    Fetch(rom, s.pc).Ok? && SkipAfter(Fetch(rom, s.pc).value, s.mem)
  }

  /** A step aborts exactly when no instruction can be fetched, the word fetched is refused, or the
      instruction to be skipped cannot be fetched. */
  lemma AbortsIff(rom: Rom, s: State)
    requires SameRows(rom.table)
    ensures Step(rom, s).Abort? <==>
      || CannotFetch(rom.flash, s.pc)
      || (!s.skip && RefusedWord(rom.flash[s.pc], s.pc22))
      || (!s.skip && SkipTaken(rom, s) && CannotFetch(rom.flash, Wrap(s.pc + 1)))
  {
    hide Slot, Row, RefusedWord, Decode, Faults, SkipAfter, Wrap, MemAfter, PcAfter, Lookup, FullWord, Size;
    FetchFailsIff(rom, s.pc);
    FetchFailsIff(rom, Wrap(s.pc + 1));
    if !CannotFetch(rom.flash, s.pc) {
      LookupIsSlot(rom.table, rom.flash[s.pc]);
      RefusedIff(rom.flash[s.pc], 0, s.pc22);
      RefusedIff(rom.flash[s.pc], if s.pc + 1 < FLASH_SIZE then FullWord(rom.flash[s.pc + 1]) else 0, s.pc22);
      if SkipTaken(rom, s) {
        SkipIsSkip(Fetch(rom, s.pc).value, s.mem);
        SkipShape(rom, Fetch(rom, s.pc).value, s);
      }
    }
  }

  lemma SkipIsSkip(i: Insn, m: Memory)
    requires SkipAfter(i, m)
    ensures IsSkipInsn(i)
  {
  }
}
