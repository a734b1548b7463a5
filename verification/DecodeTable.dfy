/**
 The decode table is unambiguous.

 main.c searches its table for the first matching row and notes that the rows
 could be sorted by popularity.  That is sound because every word matches at
 most one row.  The reference is `Slot`, the opcode map written as a decision
 tree over the bits of the word.
 */
module DecodeTable {
  import opened Isa

  /** Rows 34..54: one-operand and miscellaneous instructions, 0x9400..0x95ff. */
  function SlotOneOperand(w: bv16): (k: nat) {
    match w & 0x000f
    case 0x0 => 34
    case 0x1 => 35
    case 0x2 => 36
    case 0x3 => 37
    case 0x5 => 38
    case 0x6 => 39
    case 0x7 => 40
    case 0x8 =>
      if w & 0x0100 == 0 then 41 else
      (match w & 0x00f0
       case 0x00 => 46
       case 0x10 => 48
       case 0x80 => 49
       case 0x90 => 50
       case 0xa0 => 51
       case 0xc0 => 52
       case 0xd0 => 52
       case 0xe0 => 53
       case 0xf0 => 54
       case _ => ROWS)
    case 0x9 => if w & 0x00e0 == 0 then 47 else ROWS
    case 0xa => 42
    case 0xb => if w & 0x0100 == 0 then 43 else ROWS
    case 0xc => 44
    case 0xd => 44
    case 0xe => 45
    case 0xf => 45
    case _ => ROWS
  }

  /** Rows 20..33: loads and stores, 0x9000..0x93ff; base is 20 or 27. */
  function SlotLoadStore(w: bv16, base: nat): (k: nat) {
    match w & 0x000f
    case 0x0 => base
    case 0x1 => base + 1
    case 0x9 => base + 1
    case 0x2 => base + 2
    case 0xa => base + 2
    case 0x4 => base + 3
    case 0x5 => base + 3
    case 0x6 => base + 3
    case 0x7 => base + 3
    case 0xc => base + 4
    case 0xd => base + 4
    case 0xe => base + 5
    case 0xf => base + 6
    case _ => ROWS
  }

  function SlotNine(w: bv16): (k: nat) {
    match w & 0x0e00
    case 0x0000 => SlotLoadStore(w, 20)
    case 0x0200 => SlotLoadStore(w, 27)
    case 0x0400 => SlotOneOperand(w)
    case 0x0600 => if w & 0x0100 == 0 then 55 else 56
    case 0x0800 => if w & 0x0100 == 0 then 57 else 58
    case 0x0a00 => if w & 0x0100 == 0 then 57 else 58
    case _ => 59
  }

  function SlotLow(w: bv16): (k: nat) {
    match w & 0x1c00
    case 0x0000 =>
      (match w & 0x0300
       case 0x0000 => if w == 0 then 0 else ROWS
       case 0x0100 => 1
       case 0x0200 => 2
       case _ => if w & 0x0080 != 0 then 5 else if w & 0x0008 == 0 then 3 else 4)
    case 0x0400 => 6
    case 0x1400 => 6
    case 0x0800 => 7
    case 0x1800 => 7
    case 0x1000 => 9
    case _ => 8
  }

  function SlotHigh(w: bv16): (k: nat) {
    if w & 0x0800 == 0 then 64
    else if w & 0x0008 != 0 then ROWS
    else if w & 0x0400 != 0 then 67
    else if w & 0x0200 == 0 then 65 else 66
  }

  /** The row that owns a word, or ROWS for an illegal word. */
  function Slot(w: bv16): (k: nat) {
    match w & 0xf000
    case 0x0000 => SlotLow(w)
    case 0x1000 => SlotLow(w)
    case 0x2000 => (match w & 0x0c00 case 0x0000 => 10 case 0x0400 => 11 case 0x0800 => 12 case _ => 13)
    case 0x3000 => 14
    case 0x4000 => 15
    case 0x5000 => 15
    case 0x6000 => 16
    case 0x7000 => 17
    case 0x8000 => if w & 0x0200 == 0 then 18 else 19
    case 0xa000 => if w & 0x0200 == 0 then 18 else 19
    case 0x9000 => SlotNine(w)
    case 0xb000 => if w & 0x0800 == 0 then 60 else 61
    case 0xc000 => 62
    case 0xd000 => 62
    case 0xe000 => 63
    case _ => SlotHigh(w)
  }

  lemma RowsTo7(w: bv16, k: nat)
    requires 0 <= k < 7 && Matches(Row(k), w)
    ensures Slot(w) == k
  {
  }

  lemma RowsTo14(w: bv16, k: nat)
    requires 7 <= k < 14 && Matches(Row(k), w)
    ensures Slot(w) == k
  {
  }

  lemma RowsTo20(w: bv16, k: nat)
    requires 14 <= k < 20 && Matches(Row(k), w)
    ensures Slot(w) == k
  {
  }

  lemma RowsTo27(w: bv16, k: nat)
    requires 20 <= k < 27 && Matches(Row(k), w)
    ensures Slot(w) == k
  {
  }

  lemma RowsTo34(w: bv16, k: nat)
    requires 27 <= k < 34 && Matches(Row(k), w)
    ensures Slot(w) == k
  {
  }

  lemma RowsTo39(w: bv16, k: nat)
    requires 34 <= k < 39 && Matches(Row(k), w)
    ensures Slot(w) == k
  {
  }

  lemma RowsTo44(w: bv16, k: nat)
    requires 39 <= k < 44 && Matches(Row(k), w)
    ensures Slot(w) == k
  {
  }

  lemma RowsTo49(w: bv16, k: nat)
    requires 44 <= k < 49 && Matches(Row(k), w)
    ensures Slot(w) == k
  {
  }

  lemma RowsTo55(w: bv16, k: nat)
    requires 49 <= k < 55 && Matches(Row(k), w)
    ensures Slot(w) == k
  {
  }

  lemma RowsTo58(w: bv16, k: nat)
    requires 55 <= k < 58 && Matches(Row(k), w)
    ensures Slot(w) == k
  {
  }

  lemma RowsTo61(w: bv16, k: nat)
    requires 58 <= k < 61 && Matches(Row(k), w)
    ensures Slot(w) == k
  {
  }

  lemma RowsTo64(w: bv16, k: nat)
    requires 61 <= k < 64 && Matches(Row(k), w)
    ensures Slot(w) == k
  {
  }

  lemma RowsTo68(w: bv16, k: nat)
    requires 64 <= k < 68 && Matches(Row(k), w)
    ensures Slot(w) == k
  {
  }

  lemma LoadStoreOwned(w: bv16, base: nat)
    requires (base == 20 && w & 0xfe00 == 0x9000) || (base == 27 && w & 0xfe00 == 0x9200)
    ensures var k := SlotLoadStore(w, base); k < ROWS ==> Matches(Row(k), w)
  {
  }

  lemma OneOperandOwned(w: bv16)
    requires w & 0xfe00 == 0x9400
    ensures var k := SlotOneOperand(w); k < ROWS ==> Matches(Row(k), w)
  {
    if w & 0x000f == 0x0008 {
      EightOwned(w);
      hide Row;
    } else {
      assert SlotOneOperand(w) < 46 || SlotOneOperand(w) == 47 || SlotOneOperand(w) == ROWS;
    }
  }

  lemma EightOwned(w: bv16)
    requires w & 0xfe0f == 0x9408
    ensures var k := SlotOneOperand(w); k < ROWS ==> Matches(Row(k), w)
  {
  }

  lemma NineOwned(w: bv16)
    requires w & 0xf000 == 0x9000
    ensures var k := SlotNine(w); k < ROWS ==> Matches(Row(k), w)
  {
    hide SlotLoadStore, SlotOneOperand, Row;
    if w & 0xfe00 == 0x9000 {
      LoadStoreOwned(w, 20);
    } else if w & 0xfe00 == 0x9200 {
      LoadStoreOwned(w, 27);
    } else if w & 0xfe00 == 0x9400 {
      OneOperandOwned(w);
    } else {
      WordOwned(w);
    }
  }

  lemma WordOwned(w: bv16)
    requires w & 0xf000 == 0x9000 && w & 0xfe00 >= 0x9600
    ensures Matches(Row(SlotNine(w)), w)
  {
  }

  lemma LowOwned(w: bv16)
    requires w & 0xe000 == 0
    ensures var k := SlotLow(w); k < ROWS ==> Matches(Row(k), w)
  {
  }

  lemma MiddleOwned(w: bv16)
    requires w & 0x8000 == 0 && w & 0xe000 != 0
    ensures Matches(Row(Slot(w)), w)
  {
  }

  lemma IndirectOwned(w: bv16)
    requires w & 0xd000 == 0x8000
    ensures Matches(Row(Slot(w)), w)
  {
  }

  lemma UpperOwned(w: bv16)
    requires w & 0x8000 != 0 && w & 0xd000 != 0x8000 && w & 0xf000 != 0x9000 && w & 0xf000 != 0xf000
    ensures Matches(Row(Slot(w)), w)
  {
  }

  lemma HighOwned(w: bv16)
    requires w & 0xf000 == 0xf000
    ensures var k := SlotHigh(w); k < ROWS ==> Matches(Row(k), w)
  {
  }

  /** A row matches a word exactly when the opcode map gives the word to that row. */
  lemma MatchesIffSlot(w: bv16, k: nat)
    requires k < ROWS
    ensures Matches(Row(k), w) <==> Slot(w) == k
  {
    hide *;
    if Matches(Row(k), w) {
      RowOwns(w, k);
    }
    if Slot(w) == k {
      SlotMatches(w);
    }
  }

  lemma SlotMatches(w: bv16)
    requires Slot(w) < ROWS
    ensures Matches(Row(Slot(w)), w)
  {
    hide SlotNine, SlotLow, SlotHigh, Row;
    if w & 0xf000 == 0x9000 {
      NineOwned(w);
    } else if w & 0xe000 == 0 {
      LowOwned(w);
    } else if w & 0xf000 == 0xf000 {
      HighOwned(w);
    } else if w & 0x8000 == 0 {
      MiddleOwned(w);
    } else if w & 0xd000 == 0x8000 {
      IndirectOwned(w);
    } else {
      UpperOwned(w);
    }
  }

  lemma RowOwns(w: bv16, k: nat)
    requires k < ROWS && Matches(Row(k), w)
    ensures Slot(w) == k
  {
    hide Slot, Row, Matches;
    if k < 7 {
      RowsTo7(w, k);
    } else if k < 14 {
      RowsTo14(w, k);
    } else if k < 20 {
      RowsTo20(w, k);
    } else if k < 27 {
      RowsTo27(w, k);
    } else if k < 34 {
      RowsTo34(w, k);
    } else if k < 39 {
      RowsTo39(w, k);
    } else if k < 44 {
      RowsTo44(w, k);
    } else if k < 49 {
      RowsTo49(w, k);
    } else if k < 55 {
      RowsTo55(w, k);
    } else if k < 58 {
      RowsTo58(w, k);
    } else if k < 61 {
      RowsTo61(w, k);
    } else if k < 64 {
      RowsTo64(w, k);
    } else {
      RowsTo68(w, k);
    }
  }

  // ----- any order of the rows gives the same decoder -----

  /** t lists the rows of the table, in some order. */
  ghost predicate SameRows(t: seq<Entry>) {
    forall e :: e in t <==> exists k: nat | k < ROWS :: Row(k) == e
  }

  lemma {:induction false} LookupFinds(t: seq<Entry>, w: bv16, e: Entry)
    requires e in t && Matches(e, w)
    requires forall e' | e' in t && Matches(e', w) :: e' == e
    ensures Lookup(t, w) == Some(e)
  {
    hide Matches;
    if !Matches(t[0], w) {
      assert e in t[1..];
      LookupFinds(t[1..], w, e);
    } else {
      assert t[0] in t;
    }
  }

  lemma {:induction false} LookupFails(t: seq<Entry>, w: bv16)
    requires forall e | e in t :: !Matches(e, w)
    ensures Lookup(t, w) == None
  {
    hide Matches;
    if t != [] {
      assert t[0] in t;
      LookupFails(t[1..], w);
    }
  }

  /** First-match search over the rows in any order is the opcode map. */
  lemma LookupIsSlot(t: seq<Entry>, w: bv16)
    requires SameRows(t)
    ensures Lookup(t, w) == if Slot(w) < ROWS then Some(Row(Slot(w))) else None
  {
    hide Slot, Row, Matches, Lookup;
    forall e | e in t && Matches(e, w) ensures Slot(w) < ROWS && e == Row(Slot(w)) {
      var k: nat :| k < ROWS && Row(k) == e;
      MatchesIffSlot(w, k);
    }
    if Slot(w) < ROWS {
      var k := Slot(w);
      MatchesIffSlot(w, k);
      assert Row(k) in t;
      LookupFinds(t, w, Row(k));
    } else {
      LookupFails(t, w);
    }
  }

  lemma TableRows()
    ensures SameRows(TABLE)
  {
    hide Row;
    forall k: nat | k < ROWS ensures Row(k) in TABLE {
      assert TABLE[k] == Row(k);
    }
  }

  lemma PermutedRows(t: seq<Entry>)
    requires multiset(t) == multiset(TABLE)
    ensures SameRows(t)
  {
    hide Row;
    TableRows();
    forall e ensures e in t <==> e in TABLE {
      assert e in multiset(t) <==> e in multiset(TABLE);
    }
  }

  lemma LaidTo12(k: nat)
    requires 0 <= k < 12
    ensures WellLaid(Row(k))
  {
  }

  lemma LaidTo24(k: nat)
    requires 12 <= k < 24
    ensures WellLaid(Row(k))
  {
  }

  lemma LaidTo34(k: nat)
    requires 24 <= k < 34
    ensures WellLaid(Row(k))
  {
  }

  lemma LaidTo41(k: nat)
    requires 34 <= k < 41
    ensures WellLaid(Row(k))
  {
  }

  lemma LaidTo48(k: nat)
    requires 41 <= k < 48
    ensures WellLaid(Row(k))
  {
  }

  lemma LaidTo55(k: nat)
    requires 48 <= k < 55
    ensures WellLaid(Row(k))
  {
  }

  lemma LaidTo61(k: nat)
    requires 55 <= k < 61
    ensures WellLaid(Row(k))
  {
  }

  lemma LaidTo65(k: nat)
    requires 61 <= k < 65
    ensures WellLaid(Row(k))
  {
  }

  lemma LaidTo68(k: nat)
    requires 65 <= k < 68
    ensures WellLaid(Row(k))
  {
  }

  /** The operand flags of every row are those its handler relies on. */
  lemma RowsWellLaid(k: nat)
    requires k < ROWS
    ensures WellLaid(Row(k))
  {
    hide WellLaid, Row;
    if k < 12 {
      LaidTo12(k);
    } else if k < 24 {
      LaidTo24(k);
    } else if k < 34 {
      LaidTo34(k);
    } else if k < 41 {
      LaidTo41(k);
    } else if k < 48 {
      LaidTo48(k);
    } else if k < 55 {
      LaidTo55(k);
    } else if k < 61 {
      LaidTo61(k);
    } else if k < 65 {
      LaidTo65(k);
    } else {
      LaidTo68(k);
    }
  }
}
