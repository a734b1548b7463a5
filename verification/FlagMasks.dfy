/**
 The flag helpers of instr.c: each turns a result and its operands into a mask
 of status bits to set and a mask to clear, bit formula by bit formula.  Each is
 proved to mean what `Alu` says in numbers.
 */
module FlagMasks {
  import opened Bytes
  import opened Isa
  import opened Alu

  datatype Masks = Masks(on: Bits, off: Bits) {
    predicate Disjoint() {
      on & off == 0
    }

    /** emulate1's merge: first clear, then set. */
    function Merge(f: Bits): (r: Bits) {
      (f & !off) | on
    }

    /** *set |= flag if b holds, *clr |= flag otherwise. */
    function Mark(flag: Bits, b: bool): (r: Masks) {
      if b then this.(on := on | flag) else this.(off := off | flag)
    }

    /** *set &= ~flag. */
    function Without(flag: Bits): (r: Masks) {
      this.(on := on & !flag)
    }

    /** One of the two flags has been marked to set, the other to clear. */
    predicate Differ(f: Bits, g: Bits) {
      (Has(on, f) && Has(off, g)) || (Has(off, f) && Has(on, g))
    }
  }

  const NO_MASKS := Masks(0, 0)

  lemma BitsInNumbers(x: byte)
    ensures Has(Unpack(x), 0x80) == (x >= 128) && Has(Unpack(x), 0x08) == (x % 16 >= 8)
  {
    hide Has, UnpackLow;
    BitAtPlace(x, 8, 7);
    BitAtPlace(x, 8, 3);
    assert x / 8 % 2 == 1 <==> x % 16 >= 8;
  }

  /** x & 0x80, x & 0x08, x & 0x8000: the bits, and what they say in numbers. */
  predicate Bit7(x: byte): (b: bool)
    ensures b == (x >= 128)
  {
    BitsInNumbers(x);
    Has(Unpack(x), 0x80)
  }

  predicate Bit3(x: byte): (b: bool)
    ensures b == (x % 16 >= 8)
  {
    BitsInNumbers(x);
    Has(Unpack(x), 0x08)
  }

  predicate Bit15(x: word): (b: bool)
    ensures b == (x >= 0x8000)
  {
    Bit7(x / 256)
  }

  /** Carry, overflow, sign and half carry of an addition, as bit formulas. */
  lemma AddFormulas(res: byte, a: byte, b: byte, c: nat)
    requires c <= 1 && res == (a + b + c) % 256
    ensures Bit7(res) == (res >= 128)
    ensures (a + b + c >= 256)
         == ((Bit7(a) && Bit7(b)) || (Bit7(b) && !Bit7(res)) || (!Bit7(res) && Bit7(a)))
    ensures !(-128 <= Signed(a) + Signed(b) + c < 128)
         == ((Bit7(a) && Bit7(b) && !Bit7(res)) || (!Bit7(a) && !Bit7(b) && Bit7(res)))
    ensures (a % 16 + b % 16 + c >= 16)
         == ((Bit3(a) && Bit3(b)) || (Bit3(b) && !Bit3(res)) || (!Bit3(res) && Bit3(a)))
    ensures (Signed(a) + Signed(b) + c < 0)
         == (Bit7(res) != !(-128 <= Signed(a) + Signed(b) + c < 128))
  {
    hide Bit7, Bit3;
    assert res == a + b + c || res == a + b + c - 256;
    var low := a % 16 + b % 16 + c;
    assert res % 16 == low || res % 16 == low - 16 by {
      LowNibble(a + b + c, a / 16 + b / 16, low);
    }
  }

  /** Borrow, overflow, sign and half borrow of a subtraction, as bit formulas. */
  lemma SubFormulas(res: byte, a: byte, b: byte, c: nat)
    requires c <= 1 && res == (a - b - c) % 256
    ensures Bit7(res) == (res >= 128)
    ensures (a - b - c < 0)
         == ((!Bit7(a) && Bit7(b)) || (Bit7(b) && Bit7(res)) || (Bit7(res) && !Bit7(a)))
    ensures !(-128 <= Signed(a) - Signed(b) - c < 128)
         == ((Bit7(a) && !Bit7(b) && !Bit7(res)) || (!Bit7(a) && Bit7(b) && Bit7(res)))
    ensures (a % 16 - b % 16 - c < 0)
         == ((!Bit3(a) && Bit3(b)) || (Bit3(b) && Bit3(res)) || (Bit3(res) && !Bit3(a)))
    ensures (Signed(a) - Signed(b) - c < 0)
         == (Bit7(res) != !(-128 <= Signed(a) - Signed(b) - c < 128))
  {
    hide Bit7, Bit3;
    assert res == a - b - c || res == a - b - c + 256;
    var low := a % 16 - b % 16 - c;
    assert res % 16 == low || res % 16 == low + 16 by {
      LowNibble(a - b - c, a / 16 - b / 16, low);
    }
  }

  lemma LowNibble(x: int, high: int, low: int)
    requires x == 16 * high + low && -32 < low < 32
    ensures x % 256 % 16 == low % 16
  {
  }

  /** The common tail of the two arithmetic helpers: mark N, V, S, Z, C and H. */
  method MarkAll(n: bool, v: bool, z: bool, c: bool, h: bool) returns (fx: Masks)
    ensures fx.Disjoint()
    ensures forall f :: fx.Merge(f) == Assign(Assign(ResultFlags(f, z, n, v, n != v), C, c), H, h)
    ensures Has(fx.off, Z) == !z
  {
    fx := NO_MASKS.Mark(N, n).Mark(V, v);
    fx := fx.Mark(S, fx.Differ(N, V));
    fx := fx.Mark(Z, z).Mark(C, c).Mark(H, h);
  }

  method AdcFlags8(res: byte, rd: byte, rr: byte, ghost c: nat) returns (fx: Masks)
    requires c <= 1 && res == (rd + rr + c) % 256
    ensures fx.Disjoint()
    ensures forall f :: fx.Merge(f) == AddFlags(f, rd, rr, c)
  {
    hide Bit7, Bit3, Signed, Assign, ResultFlags, Masks.Merge, Masks.Disjoint;
    AddFormulas(res, rd, rr, c);
    var overflow := (Bit7(rd) && Bit7(rr) && !Bit7(res)) || (!Bit7(rd) && !Bit7(rr) && Bit7(res));
    var carry := (Bit7(rd) && Bit7(rr)) || (Bit7(rr) && !Bit7(res)) || (!Bit7(res) && Bit7(rd));
    var half := (Bit3(rd) && Bit3(rr)) || (Bit3(rr) && !Bit3(res)) || (!Bit3(res) && Bit3(rd));
    fx := MarkAll(Bit7(res), overflow, res == 0, carry, half);
  }

  method SubFlags8(res: byte, rd: byte, rr: byte, ghost c: nat) returns (fx: Masks)
    requires c <= 1 && res == (rd - rr - c) % 256
    ensures fx.Disjoint()
    ensures forall f :: fx.Merge(f) == SubFlags(f, rd, rr, c, true)
    ensures Has(fx.off, Z) == (res != 0)
  {
    hide Has, Bit7, Bit3, Signed, Assign, ResultFlags, Masks.Merge, Masks.Disjoint;
    SubFormulas(res, rd, rr, c);
    var overflow := (Bit7(rd) && !Bit7(rr) && !Bit7(res)) || (!Bit7(rd) && Bit7(rr) && Bit7(res));
    var carry := (!Bit7(rd) && Bit7(rr)) || (Bit7(rr) && Bit7(res)) || (Bit7(res) && !Bit7(rd));
    var half := (!Bit3(rd) && Bit3(rr)) || (Bit3(rr) && Bit3(res)) || (Bit3(res) && !Bit3(rd));
    fx := MarkAll(Bit7(res), overflow, res == 0, carry, half);
  }

  /** Replacing the Z flag after the fact. */
  lemma AssignZ(f: Bits, z: bool, z': bool, n: bool, v: bool, s: bool, c: bool, h: bool)
    ensures Assign(Assign(Assign(ResultFlags(f, z, n, v, s), C, c), H, h), Z, z')
         == Assign(Assign(ResultFlags(f, z', n, v, s), C, c), H, h)
  {
  }

  lemma DropDisjoint(fx: Masks)
    requires fx.Disjoint()
    ensures fx.Without(Z).Disjoint()
  {
  }

  lemma DropZ(fx: Masks, f: Bits)
    ensures fx.Without(Z).Merge(f) == Assign(fx.Merge(f), Z, Has(f, Z) && !Has(fx.off, Z))
  {
  }

  /** CP, CPC, SUB and SBC drop Z from the mask to set, so Z can only stay or be cleared. */
  lemma StickyZ(fx: Masks, f: Bits, a: byte, b: byte, c: nat)
    requires c <= 1 && fx.Disjoint() && fx.Merge(f) == SubFlags(f, a, b, c, true)
    requires Has(fx.off, Z) == ((a - b - c) % 256 != 0)
    ensures fx.Without(Z).Disjoint()
    ensures fx.Without(Z).Merge(f) == SubFlags(f, a, b, c, Has(f, Z))
  {
    hide Assign, ResultFlags, Has, Masks.Merge, Masks.Disjoint, Masks.Without, Signed;
    DropDisjoint(fx);
    DropZ(fx, f);
    var exact := Signed(a) - Signed(b) - c;
    var diff := a - b - c;
    AssignZ(f, diff % 256 == 0, Has(f, Z) && diff % 256 == 0, diff % 256 >= 128, !(-128 <= exact < 128), exact < 0,
            diff < 0, a % 16 - b % 16 - c < 0);
  }

  method AsrFlags8(res: byte, rd: byte) returns (fx: Masks)
    ensures fx.Disjoint()
    ensures forall f :: fx.Merge(f) == ShiftFlags(f, res, rd % 2 == 1)
  {
    fx := NO_MASKS.Mark(N, Bit7(res));
    fx := fx.Mark(Z, res == 0);
    fx := fx.Mark(C, rd % 2 == 1);
    fx := fx.Mark(V, fx.Differ(C, N));
    fx := fx.Mark(S, fx.Differ(N, V));
  }

  method LogicFlags8(res: byte) returns (fx: Masks)
    ensures fx.Disjoint()
    ensures forall f :: fx.Merge(f) == LogicFlags(f, res)
    ensures res >= 128 ==> fx == Masks(N | S, V | Z)
    ensures 0 < res < 128 ==> fx == Masks(0, V | N | S | Z)
  {
    fx := NO_MASKS.Mark(V, false);
    fx := fx.Mark(N, Bit7(res)).Mark(S, Bit7(res));
    fx := fx.Mark(Z, res == 0);
  }

  method MulFlags16(res: word) returns (fx: Masks)
    ensures fx.Disjoint()
    ensures forall f :: fx.Merge(f) == Assign(Assign(f, C, res >= 0x8000), Z, res == 0)
  {
    fx := NO_MASKS.Mark(C, Bit15(res));
    fx := fx.Mark(Z, res == 0);
  }

  method FmulFlags16(res: word) returns (fx: Masks)
    ensures fx.Disjoint()
    ensures forall f :: fx.Merge(f) == Assign(Assign(f, C, res >= 0x8000), Z, 2 * res % 0x1_0000 == 0)
  {
    fx := NO_MASKS.Mark(C, Bit15(res));
    fx := fx.Mark(Z, 2 * res % 0x1_0000 == 0);
  }

  method AdiwFlags16(res: word, rd: word, ghost k: small) returns (fx: Masks)
    requires res == (rd + k) % 0x1_0000
    ensures fx.Disjoint()
    ensures forall f :: fx.Merge(f) == WideFlags(f, rd, k)
  {
    hide Bit15;
    fx := NO_MASKS.Mark(N, Bit15(res));
    fx := fx.Mark(V, !Bit15(rd) && Bit15(res));
    fx := fx.Mark(S, fx.Differ(N, V));
    fx := fx.Mark(Z, res == 0);
    fx := fx.Mark(C, !Bit15(res) && Bit15(rd));
  }

  lemma SbiwFormulas(res: word, rd: word, k: small)
    requires res == (rd - k) % 0x1_0000
    ensures !(0 <= rd - k < 0x1_0000) == (Bit15(res) && !Bit15(rd))
    ensures !(-0x8000 <= SignedWord(rd) - k < 0x8000) == (Bit15(rd) && !Bit15(res))
    ensures (SignedWord(rd) - k < 0) == (Bit15(res) != (Bit15(rd) && !Bit15(res)))
  {
    hide Bit15;
    assert res == if rd < k then rd - k + 0x1_0000 else rd - k;
  }

  /** The flag code written out in instr_sbiw. */
  method SbiwFlags16(res: word, rd: word, ghost k: small) returns (fx: Masks)
    requires res == (rd - k) % 0x1_0000
    ensures fx.Disjoint()
    ensures forall f :: fx.Merge(f) == WideFlags(f, rd, 0 - k as int)
  {
    hide Bit15, SignedWord;
    SbiwFormulas(res, rd, k);
    fx := NO_MASKS.Mark(Z, res == 0);
    fx := fx.Mark(C, Bit15(res) && !Bit15(rd));
    fx := fx.Mark(N, Bit15(res));
    fx := fx.Mark(V, Bit15(rd) && !Bit15(res));
    fx := fx.Mark(S, fx.Differ(N, V));
  }

  /** Carry, overflow, sign and half carry of a negation. */
  lemma NegFormulas(res: byte, rd: byte)
    requires res == (0 - rd as int) % 256
    ensures (0 - rd as int < 0) == (res != 0)
    ensures !(-128 <= Signed(0) - Signed(rd) < 128) == (res == 0x80)
    ensures (0 - rd % 16 < 0) == (Bit3(res) || Bit3(rd))
    ensures (Signed(0) - Signed(rd) < 0) == (Bit7(res) != (res == 0x80))
  {
    hide Bit7, Bit3;
    assert res == if rd == 0 then 0 else 256 - rd;
    LowNibble(0 - rd as int, -(rd / 16), -(rd % 16));
  }

  /** The flag code written out in instr_neg: it agrees with subtracting rd from 0. */
  method NegFlags8(res: byte, rd: byte) returns (fx: Masks)
    requires res == (0 - rd as int) % 256
    ensures fx.Disjoint()
    ensures forall f :: fx.Merge(f) == SubFlags(f, 0, rd, 0, true)
  {
    hide Signed;
    NegFormulas(res, rd);
    fx := NO_MASKS.Mark(Z, res == 0).Mark(C, res != 0);
    fx := fx.Mark(N, Bit7(res));
    fx := fx.Mark(V, res == 0x80);
    fx := fx.Mark(H, Bit3(res) || Bit3(rd));
    fx := fx.Mark(S, fx.Differ(N, V));
  }

  /** The flag code written out in instr_com. */
  method ComFlags8(res: byte) returns (fx: Masks)
    ensures fx.Disjoint()
    ensures forall f :: fx.Merge(f) == Assign(LogicFlags(f, res), C, true)
  {
    fx := NO_MASKS.Mark(C, true).Mark(V, false);
    fx := fx.Mark(Z, res == 0);
    fx := fx.Mark(N | S, Bit7(res));
  }

  /** BSET, BCLR and BST touch a single flag. */
  method OneFlag(flag: Bits, b: bool) returns (fx: Masks)
    ensures fx.Disjoint()
    ensures forall f :: fx.Merge(f) == Assign(f, flag, b)
  {
    fx := NO_MASKS.Mark(flag, b);
  }

  /** instr_inc: logic flags, patched when the result is 0x80. */
  method IncFlags8(res: byte, ghost rd: byte) returns (fx: Masks)
    requires res == (rd + 1) % 256
    ensures fx.Disjoint()
    ensures forall f :: fx.Merge(f) == StepFlags(f, rd, 1)
  {
    fx := LogicFlags8(res);
    if res == 0x80 {
      fx := fx.(off := fx.off & !V);
      fx := fx.(off := fx.off | S);
      fx := fx.(on := fx.on & !S);
      fx := fx.(on := fx.on | V);
    }
  }

  /** instr_dec: logic flags, patched when the result is 0x7f. */
  method DecFlags8(res: byte, ghost rd: byte) returns (fx: Masks)
    requires res == (rd - 1) % 256
    ensures fx.Disjoint()
    ensures forall f :: fx.Merge(f) == StepFlags(f, rd, -1)
  {
    fx := LogicFlags8(res);
    if res == 0x7f {
      fx := fx.(off := fx.off & !(V | S));
      fx := fx.(on := fx.on | (V | S));
    }
  }
}
