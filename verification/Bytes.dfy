/**
 Bytes as integers and as eight bits, and fields of 16-bit instruction words.

 A byte is an integer in [0, 256); `Unpack` gives its bits and `Pack` reads
 bits back as a number.  The bits of the status register have names.
 */
module Bytes {

  type byte = x: int | 0 <= x < 256
  type Bits = bv8

  const C: Bits := 0x01
  const Z: Bits := 0x02
  const N: Bits := 0x04
  const V: Bits := 0x08
  const S: Bits := 0x10
  const H: Bits := 0x20
  const T: Bits := 0x40
  const I: Bits := 0x80

  predicate Has(f: Bits, m: Bits) {
    f & m != 0
  }

  /** f with the bits of m set (f |= m) or cleared (f &= ~m). */
  function Assign(f: Bits, m: Bits, b: bool): (r: Bits) {
    if b then f | m else f & !m
  }

  /** 1 << k. */
  function BitAt(k: nat): (m: Bits)
    requires k < 8
  {
    if k == 0 then 0x01 else if k == 1 then 0x02 else if k == 2 then 0x04 else if k == 3 then 0x08
    else if k == 4 then 0x10 else if k == 5 then 0x20 else if k == 6 then 0x40 else 0x80
  }

  function Num(b: bool): (r: nat) {
    if b then 1 else 0
  }

  /** The lowest k bits set. */
  function LowMask(k: nat): (m: Bits)
    requires k <= 8
  {
    if k == 0 then 0x00 else if k == 1 then 0x01 else if k == 2 then 0x03 else if k == 3 then 0x07
    else if k == 4 then 0x0f else if k == 5 then 0x1f else if k == 6 then 0x3f else if k == 7 then 0x7f else 0xff
  }

  /** f without its lowest bit, and back. */
  function Rest(f: Bits): (g: Bits)
    ensures g <= f
  {
    f >> 1
  }

  function Append(g: Bits, b: bool): (f: Bits) {
    (g << 1) | if b then 0x01 else 0x00
  }

  /** The k lowest bits of f, read as a number. */
  function PackLow(f: Bits, k: nat): (x: nat)
    requires k <= 8
    ensures x < Span(k)
    decreases f, k
  {
    if k == 0 then 0 else Num(Has(f, 0x01)) + 2 * PackLow(Rest(f), k - 1)
  }

  /** The k lowest bits of x. */
  function UnpackLow(x: nat, k: nat): (f: Bits)
    requires k <= 8
    ensures f & !LowMask(k) == 0
    decreases x, k
  {
    if k == 0 then 0 else Append(UnpackLow(x / 2, k - 1), x % 2 == 1)
  }

  lemma NoBits(f: Bits)
    requires f & !LowMask(0) == 0
    ensures f == 0
  {
  }

  lemma AppendRest(f: Bits, k: nat)
    requires 0 < k <= 8 && f & !LowMask(k) == 0
    ensures Rest(f) & !LowMask(k - 1) == 0
    ensures Append(Rest(f), Has(f, 0x01)) == f
  {
  }

  lemma RestAppend(g: Bits, b: bool, k: nat)
    requires 0 < k <= 8 && g & !LowMask(k - 1) == 0
    ensures Rest(Append(g, b)) == g
    ensures Has(Append(g, b), 0x01) == b
  {
  }

  lemma {:induction false} UnpackPackLow(f: Bits, k: nat)
    requires k <= 8 && f & !LowMask(k) == 0
    ensures UnpackLow(PackLow(f, k), k) == f
    decreases k
  {
    hide Span, Has, Rest, Append, LowMask;
    if k == 0 {
      NoBits(f);
    } else {
      AppendRest(f, k);
      UnpackPackLow(Rest(f), k - 1);
      var x, y := PackLow(f, k), PackLow(Rest(f), k - 1);
      assert x == Num(Has(f, 0x01)) + 2 * y;
      assert x / 2 == y && (x % 2 == 1) == Has(f, 0x01);
      calc {
        UnpackLow(x, k);
        Append(UnpackLow(y, k - 1), Has(f, 0x01));
        Append(Rest(f), Has(f, 0x01));
        f;
      }
    }
  }

  lemma {:induction false} PackUnpackLow(x: nat, k: nat)
    requires k <= 8 && x < Span(k)
    ensures PackLow(UnpackLow(x, k), k) == x
    decreases k
  {
    hide Has, Rest, Append, LowMask;
    if k > 0 {
      PackUnpackLow(x / 2, k - 1);
      RestAppend(UnpackLow(x / 2, k - 1), x % 2 == 1, k);
    }
  }

  function Pack(f: Bits): (x: byte) {
    PackLow(f, 8)
  }

  function Unpack(x: byte): (f: Bits) {
    UnpackLow(x, 8)
  }

  lemma UnpackPack(f: Bits)
    ensures Unpack(Pack(f)) == f
  {
    UnpackPackLow(f, 8);
  }

  lemma PackUnpack(x: byte)
    ensures Pack(Unpack(x)) == x
  {
    PackUnpackLow(x, 8);
  }

  lemma AppendBit(g: Bits, b: bool, j: nat)
    requires j < 8
    ensures Has(Append(g, b), BitAt(j)) == if j == 0 then b else Has(g, BitAt(j - 1))
  {
  }

  lemma HalvesShift(x: nat, j: nat)
    requires 1 <= j < 8
    ensures x / 2 / Span(j - 1) == x / Span(j)
  {
    assert j == 1 || j == 2 || j == 3 || j == 4 || j == 5 || j == 6 || j == 7;
  }

  /** Bit j of a number is the parity of its quotient by 2^j. */
  lemma {:induction false} BitAtPlace(x: nat, k: nat, j: nat)
    requires j < k <= 8
    ensures Has(UnpackLow(x, k), BitAt(j)) == (x / Span(j) % 2 == 1)
    decreases k
  {
    hide Append, BitAt, Has;
    AppendBit(UnpackLow(x / 2, k - 1), x % 2 == 1, j);
    if j > 0 {
      BitAtPlace(x / 2, k - 1, j - 1);
      HalvesShift(x, j);
    }
  }

  /** Two's complement reading of a byte. */
  function Signed(x: byte): (r: int)
    ensures -128 <= r < 128
    ensures r == x || r == x - 256
  {
    if x >= 128 then x - 256 else x
  }

  /** Mask with only bit k set. */
  function BitMask(k: nat): (m: bv16)
    requires k < 16
  {
    match k
    case 0 => 0x0001 case 1 => 0x0002 case 2 => 0x0004 case 3 => 0x0008
    case 4 => 0x0010 case 5 => 0x0020 case 6 => 0x0040 case 7 => 0x0080
    case 8 => 0x0100 case 9 => 0x0200 case 10 => 0x0400 case 11 => 0x0800
    case 12 => 0x1000 case 13 => 0x2000 case 14 => 0x4000 case _ => 0x8000
  }

  predicate WordBit(w: bv16, k: nat)
    requires k < 16
  {
    w & BitMask(k) != 0
  }

  /** How many values k bits can hold. */
  function Span(k: nat): (r: nat)
    requires k <= 16
    ensures r > 0
    ensures k < 16 ==> Span(k + 1) == 2 * r
    decreases 16 - k
  {
    match k
    case 0 => 1 case 1 => 2 case 2 => 4 case 3 => 8
    case 4 => 16 case 5 => 32 case 6 => 64 case 7 => 128
    case 8 => 256 case 9 => 512 case 10 => 1024 case 11 => 2048
    case 12 => 4096 case 13 => 8192 case 14 => 16384 case 15 => 32768 case _ => 65536
  }

  /** The number held in bits hi..lo of an instruction word. */
  function Field(w: bv16, hi: nat, lo: nat): (r: nat)
    requires lo <= hi < 16
    ensures r < Span(hi - lo + 1)
    decreases w, hi - lo
  {
    Num(WordBit(w, lo)) + if lo == hi then 0 else 2 * Field(w, hi, lo + 1)
  }

  // ----- remainders -----

  lemma MulBound(n: nat, e: int)
    ensures e >= 1 ==> n * e >= n
    ensures e <= -1 ==> n * e <= 0 - n
  {
  }

  /** Numbers that differ by a multiple of n have the same remainder. */
  lemma SameMod(a: int, b: int, n: nat, d: int)
    requires n > 0 && a == b + n * d
    ensures a % n == b % n
  {
    var e := a / n - b / n - d;
    assert n * e == b % n - a % n;
    MulBound(n, e);
  }

  /** The remainder of a number given as a multiple of n and something smaller. */
  lemma ModOf(x: int, n: nat, q: int, r: int)
    requires x == n * q + r && 0 <= r < n
    ensures x % n == r
  {
    SameMod(x, r, n, q);
    MulBound(n, r / n);
  }

  lemma PrevMod(x: int, y: int, n: nat)
    requires n > 0 && x % n == (y + 1) % n
    ensures (x - 1) % n == y % n
  {
    var d := x / n - (y + 1) / n;
    assert x - 1 == y + n * d;
    SameMod(x - 1, y, n, d);
  }

  lemma NextMod(x: int, n: nat)
    requires n > 0
    ensures (x % n + 1) % n == (x + 1) % n
  {
    var d := x / n;
    assert x + 1 == x % n + 1 + n * d;
    SameMod(x + 1, x % n + 1, n, d);
  }

  /** Numbers less than n apart have different remainders. */
  lemma ApartMod(x: int, y: int, n: nat)
    requires n > 0 && x < y < x + n
    ensures x % n != y % n
  {
    if x % n == y % n {
      MulBound(n, y / n - x / n);
    }
  }
}
