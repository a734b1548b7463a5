/**
 Numbers of any length as sequences of bytes.
 */
module Numbers {
  import opened Bytes

  /** 256^n. */
  function Power(n: nat): (p: nat)
    ensures p >= 1
  {
    if n == 0 then 1 else 256 * Power(n - 1)
  }

  /** Least significant byte first. */
  function Value(bs: seq<byte>): (v: nat) {
    if bs == [] then 0 else Value(bs[..|bs| - 1]) + Times(Power(|bs| - 1), bs[|bs| - 1])
  }

  /** Two's complement reading of a whole number, least significant byte first. */
  function SignedValue(bs: seq<byte>): (v: int)
    requires bs != []
  {
    Value(bs[..|bs| - 1]) + Times(Power(|bs| - 1), Signed(bs[|bs| - 1]))
  }

  /** Most significant byte first; the first byte is signed if asked. */
  function BigValue(bs: seq<byte>, signed: bool): (v: int)
    requires bs != []
  {
    if |bs| == 1 then (if signed then Signed(bs[0]) else bs[0])
    else 256 * BigValue(bs[..|bs| - 1], signed) + bs[|bs| - 1]
  }

  function Times(p: int, x: int): (r: int)
    ensures p >= 0 && x >= 0 ==> r >= 0
  {
    p * x
  }

  lemma TimesLess(p: nat, x: int, y: int)
    requires x <= y
    ensures Times(p, x) <= Times(p, y)
  {
    assert p * (y - x) >= 0;
  }

  lemma TimesSplit(p: int, x: int, y: int)
    ensures Times(p, x + y) == Times(p, x) + Times(p, y)
    ensures Times(p, x - y) == Times(p, x) - Times(p, y)
  {
  }

  lemma TimesConst(p: int)
    ensures Times(p, 0) == 0 && Times(p, 1) == p && Times(p, -1) == -p
    ensures Times(p, 255) == 255 * p && Times(p, 256) == 256 * p
    ensures Times(p, 128) == 128 * p && Times(p, -128) == -128 * p
  {
  }

  lemma {:induction false} ValueBound(bs: seq<byte>)
    ensures Value(bs) < Power(|bs|)
  {
    hide Times;
    if bs != [] {
      ValueBound(bs[..|bs| - 1]);
      TimesLess(Power(|bs| - 1), bs[|bs| - 1], 255);
      TimesConst(Power(|bs| - 1));
    }
  }

  /** The top digit decides: with 0 <= low < p, p * x + low lies below p * y exactly when x < y. */
  lemma Leading(p: nat, x: int, low: int, y: int)
    requires 0 <= low < p
    ensures Times(p, x) + low < Times(p, y) <==> x < y
  {
    hide Times;
    TimesConst(p);
    if x < y {
      TimesLess(p, x + 1, y);
      TimesSplit(p, x, 1);
    } else {
      TimesLess(p, y, x);
    }
  }

  /** All bytes are zero exactly when the number is. */
  lemma {:induction false} ZeroValue(bs: seq<byte>)
    ensures Value(bs) == 0 <==> forall k | 0 <= k < |bs| :: bs[k] == 0
  {
    hide Times;
    if bs != [] {
      var n, p := |bs| - 1, Power(|bs| - 1);
      ZeroValue(bs[..n]);
      TimesConst(p);
      assert forall k | 0 <= k < n :: bs[..n][k] == bs[k];
      if bs[n] > 0 {
        TimesLess(p, 1, bs[n]);
      }
    }
  }

  function Low(bs: seq<byte>): (r: seq<byte>)
    requires bs != []
  {
    bs[..|bs| - 1]
  }

  function Top(bs: seq<byte>): (b: byte)
    requires bs != []
  {
    bs[|bs| - 1]
  }

  lemma ValueTop(bs: seq<byte>)
    requires bs != []
    ensures Value(bs) == Value(Low(bs)) + Times(Power(|bs| - 1), Top(bs))
    ensures SignedValue(bs) == Value(Low(bs)) + Times(Power(|bs| - 1), Signed(Top(bs)))
    ensures Power(|bs|) == 256 * Power(|bs| - 1)
  {
    hide Times, Signed;
  }

  /** A difference of two-digit numbers in base p, compared with p * y. */
  lemma CompareDiff(p: nat, la: int, lb: int, c: int, low: int, x: int, y: int, bound: int)
    requires 0 <= low < p && low == la - lb + Times(p, c)
    ensures (la + Times(p, x)) - (lb + Times(p, y)) == Times(p, x - y - c) + low
    ensures (la + Times(p, x)) - (lb + Times(p, y)) < Times(p, bound) <==> x - y - c < bound
  {
    hide Times;
    TimesSplit(p, x, y);
    TimesSplit(p, x - y, c);
    Leading(p, x - y - c, low, bound);
  }

  /** A sum of two-digit numbers in base p, compared with p * y. */
  lemma CompareSum(p: nat, la: int, lb: int, c: int, low: int, x: int, y: int, bound: int)
    requires 0 <= low < p && low == la + lb - Times(p, c)
    ensures (la + Times(p, x)) + (lb + Times(p, y)) == Times(p, x + y + c) + low
    ensures (la + Times(p, x)) + (lb + Times(p, y)) < Times(p, bound) <==> x + y + c < bound
  {
    hide Times;
    TimesSplit(p, x, y);
    TimesSplit(p, x + y, c);
    Leading(p, x + y + c, low, bound);
  }

  lemma LowLength(d: seq<byte>)
    requires d != []
    ensures |Low(d)| == |d| - 1
  {
  }

  /** Truncation to a byte. */
  function Mod(x: int): (b: byte) {
    x % 256
  }

  lemma Digit(x: int)
    requires -256 <= x < 512
    ensures Mod(x) == if x < 0 then x + 256 else if x >= 256 then x - 256 else x
  {
  }

  lemma SubDigit(p: nat, la: int, lb: int, low: int, at: byte, bt: byte, dt: byte, c: nat, va: int, vb: int, vd: int)
    requires 0 <= low < p && c <= 1 && low == la - lb + Times(p, c)
    requires dt == Mod(at as int - bt - c)
    requires va == la + Times(p, at) && vb == lb + Times(p, bt) && vd == low + Times(p, dt)
    ensures va < vb <==> at as int - bt - c < 0
    ensures vd == va - vb + if va < vb then 256 * p else 0
  {
    hide Times, Mod;
    var x: int := at as int - bt - c;
    CompareDiff(p, la, lb, c, low, at, bt, 0);
    TimesConst(p);
    TimesSplit(p, x, 256);
    Digit(x);
  }

  lemma AddDigit(p: nat, la: int, lb: int, low: int, at: byte, bt: byte, dt: byte, c: nat, va: int, vb: int, vd: int)
    requires 0 <= low < p && c <= 1 && low == la + lb - Times(p, c)
    requires dt == Mod(at as int + bt + c)
    requires va == la + Times(p, at) && vb == lb + Times(p, bt) && vd == low + Times(p, dt)
    ensures va + vb >= 256 * p <==> at as int + bt + c >= 256
    ensures vd == va + vb - if va + vb >= 256 * p then 256 * p else 0
  {
    hide Times, Mod;
    var x: int := at as int + bt + c;
    CompareSum(p, la, lb, c, low, at, bt, 256);
    TimesConst(p);
    TimesSplit(p, x, 256);
    Digit(x);
  }

  /** p is the weight of the top byte of bs. */
  predicate DigitsIn(bs: seq<byte>, p: nat)
    requires bs != []
  {
    Value(bs) == Value(Low(bs)) + Times(p, Top(bs))
  }

  lemma UnfoldDigits(bs: seq<byte>, p: nat)
    requires bs != [] && DigitsIn(bs, p)
    ensures Value(bs) == Value(Low(bs)) + Times(p, Top(bs))
  {
  }

  lemma DigitView(a: seq<byte>, b: seq<byte>, d: seq<byte>)
    requires |a| == |b| == |d| >= 1
    ensures var p := Power(|a| - 1);
      && DigitsIn(a, p) && DigitsIn(b, p) && DigitsIn(d, p) && Value(Low(d)) < p
      && Power(|a|) == 256 * p
  {
    hide Times, Value, Power, Low, Top;
    ValueTop(a);
    ValueTop(b);
    ValueTop(d);
    LowLength(d);
    ValueBound(Low(d));
  }

  lemma SubViews(a: seq<byte>, b: seq<byte>, d: seq<byte>, c: nat, p: nat)
    requires |a| == |b| == |d| >= 1 && c <= 1 && DigitsIn(a, p) && DigitsIn(b, p) && DigitsIn(d, p) && Value(Low(d)) < p
    requires Value(Low(d)) == Value(Low(a)) - Value(Low(b)) + Times(p, c)
    requires Top(d) == Mod(Top(a) as int - Top(b) - c)
    ensures Value(a) < Value(b) <==> Top(a) as int - Top(b) - c < 0
    ensures Value(d) == Value(a) - Value(b) + if Value(a) < Value(b) then 256 * p else 0
  {
    hide Times, Value, Low, Top, Mod, DigitsIn;
    UnfoldDigits(a, p);
    UnfoldDigits(b, p);
    UnfoldDigits(d, p);
    SubDigit(p, Value(Low(a)), Value(Low(b)), Value(Low(d)), Top(a), Top(b), Top(d), c, Value(a), Value(b), Value(d));
  }

  /** Subtracting the top bytes with borrow c, once the low bytes d have been subtracted with borrow c. */
  lemma SubTop(a: seq<byte>, b: seq<byte>, d: seq<byte>, c: nat)
    requires |a| == |b| == |d| >= 1 && c <= 1
    requires Value(Low(d)) == Value(Low(a)) - Value(Low(b)) + Times(Power(|a| - 1), c)
    requires Top(d) == Mod(Top(a) as int - Top(b) - c)
    ensures Value(a) < Value(b) <==> Top(a) as int - Top(b) - c < 0
    ensures Value(d) == Value(a) - Value(b) + if Value(a) < Value(b) then Power(|a|) else 0
  {
    hide Times, Value, Power, Low, Top, Mod;
    DigitView(a, b, d);
    SubViews(a, b, d, c, Power(|a| - 1));
  }

  lemma SubTopSigned(a: seq<byte>, b: seq<byte>, d: seq<byte>, c: nat)
    requires |a| == |b| == |d| >= 1 && c <= 1
    requires Value(Low(d)) == Value(Low(a)) - Value(Low(b)) + Times(Power(|a| - 1), c)
    ensures SignedValue(a) < SignedValue(b) <==> Signed(Top(a)) - Signed(Top(b)) - c < 0
    ensures var half := 128 * Power(|a| - 1);
      -half <= SignedValue(a) - SignedValue(b) < half <==> -128 <= Signed(Top(a)) - Signed(Top(b)) - c < 128
  {
    hide Times, Signed, Value, SignedValue, Power, Low, Top;
    ValueTop(a);
    ValueTop(b);
    ValueBound(Low(d));
    LowLength(d);
    var p, la, lb, low := Power(|a| - 1), Value(Low(a)), Value(Low(b)), Value(Low(d));
    TimesConst(p);
    CompareDiff(p, la, lb, c, low, Signed(Top(a)), Signed(Top(b)), 0);
    CompareDiff(p, la, lb, c, low, Signed(Top(a)), Signed(Top(b)), -128);
    CompareDiff(p, la, lb, c, low, Signed(Top(a)), Signed(Top(b)), 128);
  }

  lemma AddViews(a: seq<byte>, b: seq<byte>, d: seq<byte>, c: nat, p: nat)
    requires |a| == |b| == |d| >= 1 && c <= 1 && DigitsIn(a, p) && DigitsIn(b, p) && DigitsIn(d, p) && Value(Low(d)) < p
    requires Value(Low(d)) == Value(Low(a)) + Value(Low(b)) - Times(p, c)
    requires Top(d) == Mod(Top(a) as int + Top(b) + c)
    ensures Value(a) + Value(b) >= 256 * p <==> Top(a) as int + Top(b) + c >= 256
    ensures Value(d) == Value(a) + Value(b) - if Value(a) + Value(b) >= 256 * p then 256 * p else 0
  {
    hide Times, Value, Low, Top, Mod, DigitsIn;
    UnfoldDigits(a, p);
    UnfoldDigits(b, p);
    UnfoldDigits(d, p);
    AddDigit(p, Value(Low(a)), Value(Low(b)), Value(Low(d)), Top(a), Top(b), Top(d), c, Value(a), Value(b), Value(d));
  }

  /** Adding the top bytes with carry c, once the low bytes d have been added with carry c. */
  lemma AddTop(a: seq<byte>, b: seq<byte>, d: seq<byte>, c: nat)
    requires |a| == |b| == |d| >= 1 && c <= 1
    requires Value(Low(d)) == Value(Low(a)) + Value(Low(b)) - Times(Power(|a| - 1), c)
    requires Top(d) == Mod(Top(a) as int + Top(b) + c)
    ensures Value(a) + Value(b) >= Power(|a|) <==> Top(a) as int + Top(b) + c >= 256
    ensures Value(d) == Value(a) + Value(b) - if Value(a) + Value(b) >= Power(|a|) then Power(|a|) else 0
  {
    hide Times, Value, Power, Low, Top, Mod;
    DigitView(a, b, d);
    AddViews(a, b, d, c, Power(|a| - 1));
  }

  lemma AddTopSigned(a: seq<byte>, b: seq<byte>, d: seq<byte>, c: nat)
    requires |a| == |b| == |d| >= 1 && c <= 1
    requires Value(Low(d)) == Value(Low(a)) + Value(Low(b)) - Times(Power(|a| - 1), c)
    ensures SignedValue(a) + SignedValue(b) < 0 <==> Signed(Top(a)) + Signed(Top(b)) + c < 0
    ensures var half := 128 * Power(|a| - 1);
      -half <= SignedValue(a) + SignedValue(b) < half <==> -128 <= Signed(Top(a)) + Signed(Top(b)) + c < 128
  {
    hide Times, Signed, Value, SignedValue, Power, Low, Top;
    ValueTop(a);
    ValueTop(b);
    ValueBound(Low(d));
    LowLength(d);
    var p, la, lb, low := Power(|a| - 1), Value(Low(a)), Value(Low(b)), Value(Low(d));
    TimesConst(p);
    CompareSum(p, la, lb, c, low, Signed(Top(a)), Signed(Top(b)), 0);
    CompareSum(p, la, lb, c, low, Signed(Top(a)), Signed(Top(b)), -128);
    CompareSum(p, la, lb, c, low, Signed(Top(a)), Signed(Top(b)), 128);
  }
}
