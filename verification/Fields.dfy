/**
 Instruction words bit by bit: how a word is spelled, and what the decoder's
 operand fields are in terms of the bits the manual's letters stand for.
 */
module Fields {
  import opened Bytes
  import opened Isa
  import opened Assembler

  // ----- words as bits -----

  predicate Agrees(w: bv16, q: Quad) {
    && WordBit(w, 15) == q.n3.b3 && WordBit(w, 14) == q.n3.b2 && WordBit(w, 13) == q.n3.b1 && WordBit(w, 12) == q.n3.b0
    && WordBit(w, 11) == q.n2.b3 && WordBit(w, 10) == q.n2.b2 && WordBit(w, 9) == q.n2.b1 && WordBit(w, 8) == q.n2.b0
    && WordBit(w, 7) == q.n1.b3 && WordBit(w, 6) == q.n1.b2 && WordBit(w, 5) == q.n1.b1 && WordBit(w, 4) == q.n1.b0
    && WordBit(w, 3) == q.n0.b3 && WordBit(w, 2) == q.n0.b2 && WordBit(w, 1) == q.n0.b1 && WordBit(w, 0) == q.n0.b0
  }

  predicate NibbleAgrees(n: Nibble, w: bv16) {
    n.b3 == (w & 8 != 0) && n.b2 == (w & 4 != 0) && n.b1 == (w & 2 != 0) && n.b0 == (w & 1 != 0)
  }

  lemma NibbleBits(n: Nibble)
    ensures NibbleWord(n) & 0xfff0 == 0 && NibbleAgrees(n, NibbleWord(n))
  {
  }

  /** The bits of a word put together from its nibbles. */
  lemma SpreadHigh(a: bv16, b: bv16, c: bv16, d: bv16)
    requires a & 0xfff0 == 0 && b & 0xfff0 == 0 && c & 0xfff0 == 0 && d & 0xfff0 == 0
    ensures var w := (a << 12) | (b << 8) | (c << 4) | d;
      && (w & 0x8000 != 0) == (a & 8 != 0) && (w & 0x4000 != 0) == (a & 4 != 0)
      && (w & 0x2000 != 0) == (a & 2 != 0) && (w & 0x1000 != 0) == (a & 1 != 0)
      && (w & 0x0800 != 0) == (b & 8 != 0) && (w & 0x0400 != 0) == (b & 4 != 0)
      && (w & 0x0200 != 0) == (b & 2 != 0) && (w & 0x0100 != 0) == (b & 1 != 0)
  {
  }

  lemma SpreadLow(a: bv16, b: bv16, c: bv16, d: bv16)
    requires a & 0xfff0 == 0 && b & 0xfff0 == 0 && c & 0xfff0 == 0 && d & 0xfff0 == 0
    ensures var w := (a << 12) | (b << 8) | (c << 4) | d;
      && (w & 0x0080 != 0) == (c & 8 != 0) && (w & 0x0040 != 0) == (c & 4 != 0)
      && (w & 0x0020 != 0) == (c & 2 != 0) && (w & 0x0010 != 0) == (c & 1 != 0)
      && (w & 0x0008 != 0) == (d & 8 != 0) && (w & 0x0004 != 0) == (d & 4 != 0)
      && (w & 0x0002 != 0) == (d & 2 != 0) && (w & 0x0001 != 0) == (d & 1 != 0)
  {
  }

  lemma Masks()
    ensures BitMask(15) == 0x8000 && BitMask(14) == 0x4000 && BitMask(13) == 0x2000 && BitMask(12) == 0x1000
    ensures BitMask(11) == 0x0800 && BitMask(10) == 0x0400 && BitMask(9) == 0x0200 && BitMask(8) == 0x0100
    ensures BitMask(7) == 0x0080 && BitMask(6) == 0x0040 && BitMask(5) == 0x0020 && BitMask(4) == 0x0010
    ensures BitMask(3) == 0x0008 && BitMask(2) == 0x0004 && BitMask(1) == 0x0002 && BitMask(0) == 0x0001
  {
  }

  lemma MaskBits(w: bv16)
    ensures WordBit(w, 15) == (w & 0x8000 != 0) && WordBit(w, 14) == (w & 0x4000 != 0)
    ensures WordBit(w, 13) == (w & 0x2000 != 0) && WordBit(w, 12) == (w & 0x1000 != 0)
    ensures WordBit(w, 11) == (w & 0x0800 != 0) && WordBit(w, 10) == (w & 0x0400 != 0)
    ensures WordBit(w, 9) == (w & 0x0200 != 0) && WordBit(w, 8) == (w & 0x0100 != 0)
    ensures WordBit(w, 7) == (w & 0x0080 != 0) && WordBit(w, 6) == (w & 0x0040 != 0)
    ensures WordBit(w, 5) == (w & 0x0020 != 0) && WordBit(w, 4) == (w & 0x0010 != 0)
    ensures WordBit(w, 3) == (w & 0x0008 != 0) && WordBit(w, 2) == (w & 0x0004 != 0)
    ensures WordBit(w, 1) == (w & 0x0002 != 0) && WordBit(w, 0) == (w & 0x0001 != 0)
  {
    hide WordBit, BitMask;
    Masks();
    MaskBit(w, 15, 0x8000);
    MaskBit(w, 14, 0x4000);
    MaskBit(w, 13, 0x2000);
    MaskBit(w, 12, 0x1000);
    MaskBit(w, 11, 0x0800);
    MaskBit(w, 10, 0x0400);
    MaskBit(w, 9, 0x0200);
    MaskBit(w, 8, 0x0100);
    MaskBit(w, 7, 0x0080);
    MaskBit(w, 6, 0x0040);
    MaskBit(w, 5, 0x0020);
    MaskBit(w, 4, 0x0010);
    MaskBit(w, 3, 0x0008);
    MaskBit(w, 2, 0x0004);
    MaskBit(w, 1, 0x0002);
    MaskBit(w, 0, 0x0001);
  }

  lemma MaskBit(w: bv16, k: nat, m: bv16)
    requires k < 16 && BitMask(k) == m
    ensures WordBit(w, k) == (w & m != 0)
  {
    hide BitMask;
  }

  lemma SpelledBits(q: Quad)
    ensures Agrees(WordOf(q), q)
  {
    hide NibbleWord, WordBit;
    var a, b, c, d := NibbleWord(q.n3), NibbleWord(q.n2), NibbleWord(q.n1), NibbleWord(q.n0);
    NibbleBits(q.n3);
    NibbleBits(q.n2);
    NibbleBits(q.n1);
    NibbleBits(q.n0);
    SpreadHigh(a, b, c, d);
    SpreadLow(a, b, c, d);
    MaskBits(WordOf(q));
  }

  lemma SameBits(w: bv16, v: bv16, q: Quad)
    requires Agrees(w, q) && Agrees(v, q)
    ensures w == v
  {
    hide WordBit;
    MaskBits(w);
    MaskBits(v);
    SameMasks(w, v);
  }

  predicate SameAt(w: bv16, v: bv16, m: bv16) {
    (w & m != 0) == (v & m != 0)
  }

  lemma SameMasks(w: bv16, v: bv16)
    requires SameAt(w, v, 0x8000) && SameAt(w, v, 0x4000) && SameAt(w, v, 0x2000) && SameAt(w, v, 0x1000)
    requires SameAt(w, v, 0x0800) && SameAt(w, v, 0x0400) && SameAt(w, v, 0x0200) && SameAt(w, v, 0x0100)
    requires SameAt(w, v, 0x0080) && SameAt(w, v, 0x0040) && SameAt(w, v, 0x0020) && SameAt(w, v, 0x0010)
    requires SameAt(w, v, 0x0008) && SameAt(w, v, 0x0004) && SameAt(w, v, 0x0002) && SameAt(w, v, 0x0001)
    ensures w == v
  {
  }

  lemma AgreesIff(w: bv16, q: Quad)
    ensures Agrees(w, q) <==> w == WordOf(q)
  {
    hide Agrees, WordOf;
    SpelledBits(q);
    if Agrees(w, q) {
      SameBits(w, WordOf(q), q);
    }
  }

  lemma BitUp(x: nat, k: nat)
    requires k > 0
    ensures Bit(x, k) == Bit(x / 2, k - 1)
  {
  }

  /** The bits of w from lo up to hi are those of the number x. */
  predicate Holds(w: bv16, hi: nat, lo: nat, x: nat)
    requires lo <= hi < 16
    decreases hi - lo
  {
    WordBit(w, lo) == Bit(x, 0) && (lo < hi ==> Holds(w, hi, lo + 1, x / 2))
  }

  lemma {:induction false} FieldIff(w: bv16, hi: nat, lo: nat, x: nat)
    requires lo <= hi < 16 && x < Span(hi - lo + 1)
    ensures Field(w, hi, lo) == x <==> Holds(w, hi, lo, x)
    decreases hi - lo
  {
    hide WordBit, Bit;
    LowBit(x);
    if lo < hi {
      FieldIff(w, hi, lo + 1, x / 2);
      assert Field(w, hi, lo) == Num(WordBit(w, lo)) + 2 * Field(w, hi, lo + 1);
    }
  }

  lemma Holds2(w: bv16, lo: nat, x: nat)
    requires lo < 15 && x < 4
    ensures Field(w, lo + 1, lo) == x <==> WordBit(w, lo) == Bit(x, 0) && WordBit(w, lo + 1) == Bit(x, 1)
  {
    hide WordBit, Field;
    FieldIff(w, lo + 1, lo, x);
  }

  lemma Holds3(w: bv16, lo: nat, x: nat)
    requires lo < 14 && x < 8
    ensures Field(w, lo + 2, lo) == x
       <==> WordBit(w, lo) == Bit(x, 0) && WordBit(w, lo + 1) == Bit(x, 1) && WordBit(w, lo + 2) == Bit(x, 2)
  {
    hide WordBit, Field;
    FieldIff(w, lo + 2, lo, x);
  }

  lemma Holds4(w: bv16, lo: nat, x: nat)
    requires lo < 13 && x < 16
    ensures Field(w, lo + 3, lo) == x <==>
      && WordBit(w, lo) == Bit(x, 0) && WordBit(w, lo + 1) == Bit(x, 1)
      && WordBit(w, lo + 2) == Bit(x, 2) && WordBit(w, lo + 3) == Bit(x, 3)
  {
    hide WordBit, Field;
    FieldIff(w, lo + 3, lo, x);
  }

  lemma Holds5(w: bv16, lo: nat, x: nat)
    requires lo < 12 && x < 32
    ensures Field(w, lo + 4, lo) == x <==>
      && WordBit(w, lo) == Bit(x, 0) && WordBit(w, lo + 1) == Bit(x, 1) && WordBit(w, lo + 2) == Bit(x, 2)
      && WordBit(w, lo + 3) == Bit(x, 3) && WordBit(w, lo + 4) == Bit(x, 4)
  {
    hide WordBit, Field;
    FieldIff(w, lo + 4, lo, x);
  }

  lemma LowBit(x: nat)
    ensures Bit(x, 0) == (x % 2 == 1)
  {
  }

  /** The low bits of a number do not depend on what is above them. */
  lemma {:induction false} BitLow(x: nat, r: nat, q: nat, n: nat, k: nat)
    requires n <= 16 && x == r + Span(n) * q && k < n
    ensures Bit(x, k) == Bit(r, k)
    decreases k
  {
    var t := Span(n - 1) * q;
    assert Span(n) * q == 2 * t;
    assert x / 2 == r / 2 + t;
    if k > 0 {
      BitLow(x / 2, r / 2, q, n - 1, k - 1);
    }
  }

  lemma Low4(x: nat, q: nat, r: nat)
    requires x == r + 16 * q
    ensures Bit(x, 0) == Bit(r, 0) && Bit(x, 1) == Bit(r, 1) && Bit(x, 2) == Bit(r, 2) && Bit(x, 3) == Bit(r, 3)
  {
    hide Bit;
    BitLow(x, r, q, 4, 0);
    BitLow(x, r, q, 4, 1);
    BitLow(x, r, q, 4, 2);
    BitLow(x, r, q, 4, 3);
  }

  lemma Low3(x: nat, q: nat, r: nat)
    requires x == r + 8 * q
    ensures Bit(x, 0) == Bit(r, 0) && Bit(x, 1) == Bit(r, 1) && Bit(x, 2) == Bit(r, 2)
  {
    hide Bit;
    BitLow(x, r, q, 3, 0);
    BitLow(x, r, q, 3, 1);
    BitLow(x, r, q, 3, 2);
  }

  lemma {:induction false} BitDivides(x: nat, k: nat)
    requires k < 8
    ensures Bit(x, k) == (x / Span(k) % 2 == 1)
    decreases k
  {
    if k > 0 {
      BitDivides(x / 2, k - 1);
      HalvesShift(x, k);
    }
  }

  /** The single bits of a number by division. */
  lemma BitsByDivision(x: nat)
    ensures Bit(x, 0) == (x % 2 == 1) && Bit(x, 1) == (x / 2 % 2 == 1) && Bit(x, 2) == (x / 4 % 2 == 1)
    ensures Bit(x, 3) == (x / 8 % 2 == 1) && Bit(x, 4) == (x / 16 % 2 == 1) && Bit(x, 5) == (x / 32 % 2 == 1)
  {
    hide Bit;
    BitDivides(x, 0);
    BitDivides(x, 1);
    BitDivides(x, 2);
    BitDivides(x, 3);
    BitDivides(x, 4);
    BitDivides(x, 5);
  }

  // ----- the decoder's fields, by their bits -----

  predicate NibbleAt(w: bv16, lo: nat, x: nat)
    requires lo < 13
  {
    && WordBit(w, lo) == Bit(x, 0) && WordBit(w, lo + 1) == Bit(x, 1)
    && WordBit(w, lo + 2) == Bit(x, 2) && WordBit(w, lo + 3) == Bit(x, 3)
  }

  predicate ThreeAt(w: bv16, lo: nat, x: nat)
    requires lo < 14
  {
    WordBit(w, lo) == Bit(x, 0) && WordBit(w, lo + 1) == Bit(x, 1) && WordBit(w, lo + 2) == Bit(x, 2)
  }

  lemma OneIff(w: bv16, k: nat)
    requires k < 16
    ensures Field(w, k, k) == Num(WordBit(w, k))
  {
    hide WordBit;
  }

  lemma D84Iff(w: bv16, d: reg)
    ensures D84Of(w) == d <==> NibbleAt(w, 4, d) && WordBit(w, 8) == Bit(d, 4)
  {
    hide WordBit, Field, Bit;
    Holds5(w, 4, d);
  }

  lemma D74Iff(w: bv16, d: reg)
    ensures D74Of(w) == d <==> d >= 16 && NibbleAt(w, 4, d)
  {
    hide WordBit, Field, Bit;
    if d >= 16 {
      Holds4(w, 4, d - 16);
      Low4(d, 1, d - 16);
    }
  }

  lemma D64Iff(w: bv16, d: reg)
    ensures D64Of(w) == d <==> 16 <= d < 24 && ThreeAt(w, 4, d)
  {
    hide WordBit, Field, Bit;
    if 16 <= d < 24 {
      Holds3(w, 4, d - 16);
      Low3(d, 2, d - 16);
    }
  }

  lemma R9Iff(w: bv16, r: reg)
    ensures R9Of(w) == r <==> NibbleAt(w, 0, r) && WordBit(w, 9) == Bit(r, 4)
  {
    hide WordBit, Field, Bit;
    Holds4(w, 0, r % 16);
    Low4(r, r / 16, r % 16);
    OneIff(w, 9);
    BitsByDivision(r);
  }

  lemma R30Iff(w: bv16, r: reg)
    ensures R30Of(w) == r <==> r >= 16 && NibbleAt(w, 0, r)
  {
    hide WordBit, Field, Bit;
    if r >= 16 {
      Holds4(w, 0, r - 16);
      Low4(r, 1, r - 16);
    }
  }

  lemma BitIff(w: bv16, b: bitno)
    ensures BitOf(w) == b <==> ThreeAt(w, 0, b)
  {
    hide WordBit, Field, Bit;
    Holds3(w, 0, b);
  }

  lemma R20Iff(w: bv16, r: reg)
    ensures R20Of(w) == r <==> 16 <= r < 24 && ThreeAt(w, 0, r)
  {
    hide WordBit, Field, Bit, BitOf;
    if 16 <= r < 24 {
      BitIff(w, r - 16);
      Low3(r, 2, r - 16);
    }
  }

  lemma K8Iff(w: bv16, k: byte)
    ensures K8Of(w) == k <==> NibbleAt(w, 8, k / 16) && NibbleAt(w, 0, k)
  {
    hide WordBit, Field, Bit;
    Holds4(w, 0, k % 16);
    Low4(k, k / 16, k % 16);
    Holds4(w, 8, k / 16);
  }

  lemma K6Iff(w: bv16, k: small)
    ensures K6Of(w) == k <==> NibbleAt(w, 0, k) && WordBit(w, 6) == Bit(k, 4) && WordBit(w, 7) == Bit(k, 5)
  {
    hide WordBit, Field, Bit;
    Holds4(w, 0, k % 16);
    Low4(k, k / 16, k % 16);
    Holds2(w, 6, k / 16);
    BitsByDivision(k);
    BitsByDivision(k / 16);
  }

  lemma PairIff(w: bv16, p: pair)
    ensures PairOf(w) == p <==> p >= 24 && WordBit(w, 4) == Bit(p, 1) && WordBit(w, 5) == Bit(p, 2)
  {
    hide WordBit, Field, Bit;
    if p >= 24 {
      Holds2(w, 4, (p - 24) / 2);
      BitsByDivision(p);
      BitsByDivision((p - 24) / 2);
    }
  }

  lemma PortIff(w: bv16, port: ioport)
    ensures PortOf(w) == port <==>
      NibbleAt(w, 0, port) && WordBit(w, 9) == Bit(port, 4) && WordBit(w, 10) == Bit(port, 5)
  {
    hide WordBit, Field, Bit;
    Holds4(w, 0, port % 16);
    Low4(port, port / 16, port % 16);
    Holds2(w, 9, port / 16);
    BitsByDivision(port);
    BitsByDivision(port / 16);
  }

  lemma LowPortIff(w: bv16, port: lowport)
    ensures LowPortOf(w) == port <==> NibbleAt(w, 3, port) && WordBit(w, 7) == Bit(port, 4)
  {
    hide WordBit, Field, Bit;
    Holds5(w, 3, port);
  }

  lemma FlagIff(w: bv16, b: bitno)
    ensures FlagOf(w) == b <==> ThreeAt(w, 4, b)
  {
    hide WordBit, Field, Bit;
    Holds3(w, 4, b);
  }

  lemma NibbleIff(w: bv16, lo: nat, x: nat)
    requires lo < 13 && x < 16
    ensures Field(w, lo + 3, lo) == x <==> NibbleAt(w, lo, x)
  {
    hide WordBit, Field, Bit;
    Holds4(w, lo, x);
  }

  lemma HighIff(w: bv16, h: nat)
    requires h < 64
    ensures HighOf(w) == h <==> NibbleAt(w, 4, h / 2) && WordBit(w, 8) == Bit(h / 2, 4) && WordBit(w, 0) == Bit(h, 0)
  {
    hide WordBit, Field, Bit;
    Holds5(w, 4, h / 2);
    OneIff(w, 0);
    LowBit(h);
  }

  lemma DisplacementIff(w: bv16, q: small)
    ensures 32 * Field(w, 13, 13) + 8 * Field(w, 11, 10) + Field(w, 2, 0) == q <==>
      && WordBit(w, 13) == Bit(q, 5) && WordBit(w, 11) == Bit(q, 4) && WordBit(w, 10) == Bit(q, 3) && ThreeAt(w, 0, q)
  {
    hide WordBit, Field, Bit;
    var a, b, c := q % 8, q / 8 % 4, q / 32;
    assert q == a + 8 * b + 32 * c;
    OneIff(w, 13);
    Holds2(w, 10, b);
    Holds3(w, 0, a);
    Low3(q, q / 8, a);
    DisplacementBits(q);
  }

  lemma DisplacementBits(q: small)
    ensures Bit(q, 5) == (q / 32 == 1) && Bit(q, 4) == Bit(q / 8 % 4, 1) && Bit(q, 3) == Bit(q / 8 % 4, 0)
  {
    hide Bit;
    BitsByDivision(q);
    BitsByDivision(q / 8 % 4);
  }

  /** x moved up by k bits. */
  function Up(k: nat, x: nat): (r: nat)
    requires k <= 16
  {
    Span(k) * x
  }

  lemma UpOne(k: nat, x: nat)
    requires 1 <= k < 16
    ensures Up(k, x) == 2 * Up(k - 1, x) && Up(0, x) == x
  {
    SpanUp(k);
    Double(Span(k), Span(k - 1), x);
  }

  lemma Double(a: nat, b: nat, x: nat)
    requires a == 2 * b
    ensures a * x == 2 * (b * x)
  {
  }

  lemma {:induction false} FieldSplit(w: bv16, hi: nat, mid: nat, lo: nat)
    requires lo < mid <= hi < 16
    ensures Field(w, hi, lo) == Field(w, mid - 1, lo) + Up(mid - lo, Field(w, hi, mid))
    decreases mid - lo
  {
    hide WordBit, Field, Span, Up;
    FieldDef(w, hi, lo);
    FieldDef(w, mid - 1, lo);
    UpOne(mid - lo, Field(w, hi, mid));
    if lo + 1 < mid {
      FieldSplit(w, hi, mid, lo + 1);
    }
  }

  lemma FieldDef(w: bv16, hi: nat, lo: nat)
    requires lo <= hi < 16
    ensures Field(w, hi, lo) == Num(WordBit(w, lo)) + if lo < hi then 2 * Field(w, hi, lo + 1) else 0
  {
    hide WordBit;
  }

  lemma SpanUp(k: nat)
    requires 1 <= k < 16
    ensures Span(k) == 2 * Span(k - 1) && Span(1) == 2
  {
  }

  /** The number in a field, from the one the manual's letters spell. */
  lemma SevenIff(w: bv16, k: nat)
    requires k < 128
    ensures Field(w, 9, 3) == k <==> NibbleAt(w, 3, k) && ThreeAt(w, 7, k / 16)
  {
    hide WordBit, Field, Bit;
    FieldSplit(w, 9, 7, 3);
    Holds4(w, 3, k % 16);
    Low4(k, k / 16, k % 16);
    Holds3(w, 7, k / 16);
  }

  /** Three digits to the base 16, and what the manual's nibbles are of the whole number. */
  lemma ThreeDigits(k: nat)
    requires k < 4096
    ensures k == k % 16 + 16 * (k / 16 % 16) + 256 * (k / 256)
    ensures Nib(k) == Nib(k % 16) && Nib(k / 16) == Nib(k / 16 % 16)
  {
    hide Bit;
    Low4(k, k / 16, k % 16);
    Low4(k / 16, k / 256, k / 16 % 16);
  }

  lemma TwelveNibbles(w: bv16)
    ensures Field(w, 11, 0) == Field(w, 3, 0) + 16 * Field(w, 7, 4) + 256 * Field(w, 11, 8)
    ensures Field(w, 3, 0) < 16 && Field(w, 7, 4) < 16 && Field(w, 11, 8) < 16
  {
    hide Field;
    FieldSplit(w, 11, 4, 0);
    FieldSplit(w, 11, 8, 4);
  }

  lemma Digits3(a: nat, b: nat, c: nat, x: nat, y: nat, z: nat)
    requires a < 16 && b < 16 && x < 16 && y < 16
    ensures a + 16 * b + 256 * c == x + 16 * y + 256 * z <==> a == x && b == y && c == z
  {
  }

  lemma TwelveIff(w: bv16, k: nat)
    requires k < 4096
    ensures Field(w, 11, 0) == k <==> NibbleAt(w, 0, k) && NibbleAt(w, 4, k / 16) && NibbleAt(w, 8, k / 256)
  {
    hide WordBit, Field, Bit;
    var x, y, z := k % 16, k / 16 % 16, k / 256;
    TwelveNibbles(w);
    ThreeDigits(k);
    Digits3(Field(w, 3, 0), Field(w, 7, 4), Field(w, 11, 8), x, y, z);
    Holds4(w, 0, x);
    Holds4(w, 4, y);
    Holds4(w, 8, z);
  }

  lemma BranchIff(w: bv16, offset: int)
    requires -64 <= offset < 64
    ensures BranchOffset(w) == offset <==> NibbleAt(w, 3, offset % 128) && ThreeAt(w, 7, offset % 128 / 16)
  {
    hide WordBit, Field, Bit;
    SevenIff(w, offset % 128);
  }

  lemma JumpIff(w: bv16, offset: int)
    requires -2048 <= offset < 2048
    ensures JumpOffset(w) == offset <==>
      var k := offset % 4096; NibbleAt(w, 0, k) && NibbleAt(w, 4, k / 16) && NibbleAt(w, 8, k / 256)
  {
    hide WordBit, Field, Bit;
    TwelveIff(w, offset % 4096);
  }

  lemma OffsetsFit(w: bv16)
    ensures -64 <= BranchOffset(w) < 64 && -2048 <= JumpOffset(w) < 2048
  {
    hide Field;
  }

  /** A word given as a number. */
  lemma NumberIff(w: bv16, x: word)
    ensures Field(w, 15, 0) == x <==> w == NumberWord(x)
  {
    hide WordBit, Field, Bit, WordOf;
    var low, top := x % 4096, x / 4096;
    FieldSplit(w, 15, 12, 0);
    TwelveIff(w, low);
    Holds4(w, 12, top);
    assert Field(w, 15, 0) == x <==> Field(w, 11, 0) == low && Field(w, 15, 12) == top;
    FourDigits(x);
    AgreesIff(w, Quad(Nib(x / 0x1000), Nib(x / 0x100), Nib(x / 0x10), Nib(x)));
  }

  lemma FourDigits(x: nat)
    requires x < 0x1_0000
    ensures Nib(x) == Nib(x % 4096) && Nib(x / 16) == Nib(x % 4096 / 16) && Nib(x / 256) == Nib(x % 4096 / 256)
  {
    hide Bit;
    var top, low := x / 4096, x % 4096;
    assert x == low + 16 * (256 * top);
    BitsShared(x, low, 256 * top);
    assert x / 16 == low / 16 + 16 * (16 * top);
    BitsShared(x / 16, low / 16, 16 * top);
    assert x / 256 == low / 256 + 16 * top;
    BitsShared(x / 256, low / 256, top);
  }

  lemma BitsShared(x: nat, y: nat, q: nat)
    requires x == y + 16 * q
    ensures Nib(x) == Nib(y)
  {
    hide Bit;
    Low4(x, q, y);
  }
}
