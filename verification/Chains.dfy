/**
 Multi-byte arithmetic through SREG.

 A link is one step of the machine that adds, subtracts, compares or shifts one
 byte; between links any code may run that leaves C (and, for comparisons, Z)
 alone.  A chain of links computes on numbers of any length, and the flags it
 leaves are those of the whole numbers.
 */
module Chains {
  import opened Bytes
  import opened Isa
  import opened Alu
  import opened Cpu
  import opened Numbers

  // ----- one link -----

  /** The state after the next step. */
  function After(rom: Rom, s: State): (t: State) {
    if Step(rom, s).Ok? then Step(rom, s).value else s
  }

  predicate IsSub(rom: Rom, s: State, a: byte, b: byte, carry: bool) {
    && !s.skip && Fetch(rom, s.pc).Ok?
    && var i := Fetch(rom, s.pc).value;
    && i.Sub? && i.carry == carry && s.mem[i.d] == a && s.mem[i.r] == b
  }

  predicate IsAdd(rom: Rom, s: State, a: byte, b: byte, carry: bool) {
    && !s.skip && Fetch(rom, s.pc).Ok?
    && var i := Fetch(rom, s.pc).value;
    && i.Add? && i.carry == carry && s.mem[i.d] == a && s.mem[i.r] == b
  }

  predicate IsShift(rom: Rom, s: State, op: ShiftOp, a: byte) {
    && !s.skip && Fetch(rom, s.pc).Ok?
    && var i := Fetch(rom, s.pc).value;
    && i.Shift? && i.shift == op && s.mem[i.d] == a
  }

  predicate Flag(s: State, f: Bits) {
    Has(Flags(s.mem), f)
  }

  /** The register a link writes. */
  function Dest(rom: Rom, s: State): (d: reg) {
    if Fetch(rom, s.pc).Ok? then
      match Fetch(rom, s.pc).value
      case Sub(d, _, _, _) => d
      case Add(d, _, _) => d
      case Shift(_, d) => d
      case _ => 0
    else 0
  }

  lemma FlagBits(f: Bits, z: bool, n: bool, v: bool, s: bool, c: bool, h: bool)
    ensures var g := Assign(Assign(ResultFlags(f, z, n, v, s), C, c), H, h);
      Has(g, Z) == z && Has(g, N) == n && Has(g, V) == v && Has(g, S) == s && Has(g, C) == c
  {
  }

  lemma SubMemEffect(m: Memory, d: reg, b: byte, c: nat, store: bool, zIn: bool)
    requires c <= 1
    ensures var m1 := SubMem(m, d, b, c, store, zIn);
      && Flags(m1) == SubFlags(Flags(m), m[d], b, c, zIn)
      && (store ==> m1[d] == (m[d] as int - b - c) % 256)
  {
    hide SubFlags;
    UnpackPack(SubFlags(Flags(m), m[d], b, c, zIn));
  }

  lemma AddMemEffect(m: Memory, d: reg, b: byte, c: nat)
    requires c <= 1
    ensures var m1 := AddMem(m, d, b, c);
      Flags(m1) == AddFlags(Flags(m), m[d], b, c) && m1[d] == (m[d] as int + b + c) % 256
  {
    hide AddFlags;
    UnpackPack(AddFlags(Flags(m), m[d], b, c));
  }

  /** C, N, V and S. */
  function Outcome4(m: Memory): (r: (bool, bool, bool, bool)) {
    var f := Flags(m);
    (Has(f, C), Has(f, N), Has(f, V), Has(f, S))
  }

  /** The flags and the byte of a subtraction, in terms of the exact differences. */
  lemma SubOutcome(m: Memory, d: reg, b: byte, c: nat, store: bool, zIn: bool)
    requires c <= 1
    ensures var diff, exact := m[d] as int - b - c, Signed(m[d]) - Signed(b) - c;
      var m1 := SubMem(m, d, b, c, store, zIn);
      && Outcome4(m1) == (diff < 0, Mod(diff) >= 128, !(-128 <= exact < 128), exact < 0)
      && Has(Flags(m1), Z) == (zIn && Mod(diff) == 0)
      && (store ==> m1[d] == Mod(diff))
  {
    hide Flags, Has, Assign, ResultFlags, SubMem, Signed;
    SubMemEffect(m, d, b, c, store, zIn);
    var a := m[d];
    var diff, exact := a as int - b - c, Signed(a) - Signed(b) - c;
    FlagBits(Flags(m), zIn && diff % 256 == 0, diff % 256 >= 128, !(-128 <= exact < 128), exact < 0, diff < 0,
             a % 16 - b % 16 - c < 0);
  }

  lemma AddOutcome(m: Memory, d: reg, b: byte, c: nat)
    requires c <= 1
    ensures var sum, exact := m[d] as int + b + c, Signed(m[d]) + Signed(b) + c;
      var m1 := AddMem(m, d, b, c);
      && Outcome4(m1) == (sum >= 256, Mod(sum) >= 128, !(-128 <= exact < 128), exact < 0)
      && Has(Flags(m1), Z) == (Mod(sum) == 0)
      && m1[d] == Mod(sum)
  {
    hide Flags, Has, AddFlags, AddMem, Signed, Mod;
    AddMemEffect(m, d, b, c);
    AddFlagBits(Flags(m), m[d], b, c);
    SumMod(m[d] as int + b + c);
  }

  lemma SumMod(x: int)
    ensures Mod(x) == x % 256
  {
  }

  lemma AddFlagBits(f: Bits, a: byte, b: byte, c: nat)
    requires c <= 1
    ensures var g, sum, exact := AddFlags(f, a, b, c), a as int + b + c, Signed(a) + Signed(b) + c;
      && Has(g, C) == (sum >= 256) && Has(g, N) == (Mod(sum) >= 128) && Has(g, V) == !(-128 <= exact < 128)
      && Has(g, S) == (exact < 0) && Has(g, Z) == (Mod(sum) == 0)
  {
    hide Has, Assign, ResultFlags, Signed;
    var sum, exact := a as int + b + c, Signed(a) + Signed(b) + c;
    FlagBits(f, sum % 256 == 0, sum % 256 >= 128, !(-128 <= exact < 128), exact < 0, sum >= 256,
             a % 16 + b % 16 + c >= 16);
  }

  lemma ShiftMemEffect(m: Memory, op: ShiftOp, d: reg)
    ensures var m1, x := ShiftMem(m, op, d), Shifted(op, m[d], Has(Flags(m), C));
      Flags(m1) == ShiftFlags(Flags(m), x, m[d] % 2 == 1) && m1[d] == x
  {
    hide ShiftFlags, Shifted;
    UnpackPack(ShiftFlags(Flags(m), Shifted(op, m[d], Has(Flags(m), C)), m[d] % 2 == 1));
  }

  lemma AluStep(rom: Rom, s: State)
    requires !s.skip && Fetch(rom, s.pc).Ok? && OnlyAlu(Fetch(rom, s.pc).value)
    ensures Step(rom, s).Ok? && After(rom, s).mem == AluMem(rom, Fetch(rom, s.pc).value, s.mem)
    ensures !After(rom, s).skip
  {
    hide Fetch, AluMem, MemAfter, PcAfter, SkipAfter, Faults, OnlyAlu, Wrap, Size;
    OnlyAluShape(rom, Fetch(rom, s.pc).value, s);
  }

  lemma SubEffect(rom: Rom, s: State, a: byte, b: byte, carry: bool)
    requires IsSub(rom, s, a, b, carry)
    ensures var c := Num(carry && Flag(s, C));
      var t := After(rom, s);
      && Step(rom, s).Ok?
      && Flag(t, C) == (a - b - c < 0)
      && Flag(t, S) == (Signed(a) - Signed(b) - c < 0)
      && Flag(t, V) == !(-128 <= Signed(a) - Signed(b) - c < 128)
      && Flag(t, N) == (Mod(a as int - b - c) >= 128)
      && Flag(t, Z) == (Flag(s, Z) && Mod(a as int - b - c) == 0)
      && (Fetch(rom, s.pc).value.store ==> t.mem[Dest(rom, s)] == Mod(a as int - b - c))
  {
    hide Fetch, Has, Flags, Signed, After, SubMem, Mod, Step;
    var i := Fetch(rom, s.pc).value;
    AluStep(rom, s);
    SubOutcome(s.mem, i.d, b, Num(carry && Flag(s, C)), i.store, Flag(s, Z));
  }

  lemma AddEffect(rom: Rom, s: State, a: byte, b: byte, carry: bool)
    requires IsAdd(rom, s, a, b, carry)
    ensures var c := Num(carry && Flag(s, C));
      var t := After(rom, s);
      && Step(rom, s).Ok?
      && Flag(t, C) == (a + b + c >= 256)
      && Flag(t, S) == (Signed(a) + Signed(b) + c < 0)
      && Flag(t, V) == !(-128 <= Signed(a) + Signed(b) + c < 128)
      && Flag(t, N) == (Mod(a as int + b + c) >= 128)
      && Flag(t, Z) == (Mod(a as int + b + c) == 0)
      && t.mem[Dest(rom, s)] == Mod(a as int + b + c)
  {
    hide Fetch, Has, Flags, Signed, After, AddMem, Mod, Step;
    var i := Fetch(rom, s.pc).value;
    AluStep(rom, s);
    AddOutcome(s.mem, i.d, b, Num(carry && Flag(s, C)));
  }

  lemma ShiftBits(f: Bits, z: bool, n: bool, v: bool, s: bool, c: bool)
    ensures var g := Assign(ResultFlags(f, z, n, v, s), C, c); Has(g, S) == s && Has(g, C) == c
  {
  }

  lemma ShiftEffect(rom: Rom, s: State, op: ShiftOp, a: byte)
    requires IsShift(rom, s, op, a)
    ensures var t := After(rom, s);
      && Step(rom, s).Ok?
      && Flag(t, C) == (a % 2 == 1) && Flag(t, S) == (a % 2 == 1)
      && t.mem[Dest(rom, s)] == a / 2 + 128 * Num(ShiftIn(op, a, Flag(s, C)))
  {
    hide Fetch, Has, Flags, ResultFlags, Assign, After, ShiftMem, ShiftIn;
    var i := Fetch(rom, s.pc).value;
    AluStep(rom, s);
    ShiftMemEffect(s.mem, op, i.d);
    var x := Shifted(op, a, Flag(s, C));
    ShiftBits(Flags(s.mem), x == 0, x >= 128, (x >= 128) != (a % 2 == 1), a % 2 == 1, a % 2 == 1);
  }

  // ----- subtraction and comparison -----

  /** The states at which the links of a SUB/SBC (or CP/CPC) chain on numbers a and b are about to run,
      with C and Z handed from each link to the next. */
  ghost predicate SubChain(rom: Rom, ss: seq<State>, a: seq<byte>, b: seq<byte>) {
    && |ss| == |a| == |b|
    && (forall k | 0 <= k < |ss| :: IsSub(rom, ss[k], a[k], b[k], k > 0))
    && (forall k | 0 < k < |ss| :: Handed(rom, ss[k - 1], ss[k], C) && Handed(rom, ss[k - 1], ss[k], Z))
  }

  /** State t finds flag f as the step from s left it. */
  predicate Handed(rom: Rom, s: State, t: State, f: Bits) {
    Flag(t, f) == Flag(After(rom, s), f)
  }

  /** The bytes the links compute. */
  ghost function SubDigits(ss: seq<State>, a: seq<byte>, b: seq<byte>): (d: seq<byte>)
    requires |ss| == |a| == |b|
    ensures |d| == |a|
  {
    if a == [] then []
    else
      var n := |a| - 1;
      SubDigits(ss[..n], a[..n], b[..n]) + [Mod(a[n] as int - b[n] - Num(n > 0 && Flag(ss[n], C)))]
  }

  lemma SubLink(rom: Rom, ss: seq<State>, a: seq<byte>, b: seq<byte>, k: nat)
    requires SubChain(rom, ss, a, b) && k < |ss|
    ensures |ss| == |a| == |b| && IsSub(rom, ss[k], a[k], b[k], k > 0)
  {
    hide IsSub, Handed;
  }

  lemma SubPrefix(rom: Rom, ss: seq<State>, a: seq<byte>, b: seq<byte>)
    requires SubChain(rom, ss, a, b) && ss != []
    ensures var n := |ss| - 1; SubChain(rom, ss[..n], a[..n], b[..n])
  {
    hide IsSub, Handed;
  }

  /** The difference: C is unsigned less-than, and the digits are the difference modulo 256^n. */
  lemma {:induction false} SubChainValue(rom: Rom, ss: seq<State>, a: seq<byte>, b: seq<byte>)
    requires SubChain(rom, ss, a, b) && ss != []
    ensures Flag(After(rom, ss[|ss| - 1]), C) == (Value(a) < Value(b))
    ensures Value(SubDigits(ss, a, b)) == Value(a) - Value(b) + if Value(a) < Value(b) then Power(|a|) else 0
    decreases |ss|
  {
    hide IsSub, Handed, After, Flag, Value, Power, Mod, Times, Step, Fetch;
    var n := |ss| - 1;
    var d := SubDigits(ss, a, b);
    var c := Num(n > 0 && Flag(ss[n], C));
    SubBorrow(rom, ss, a, b);
    SubTop(a, b, d, c);
    SubEffect(rom, ss[n], a[n], b[n], n > 0);
  }

  /** The borrow into the last link is the comparison of the lower bytes. */
  lemma {:induction false} SubBorrow(rom: Rom, ss: seq<State>, a: seq<byte>, b: seq<byte>)
    requires SubChain(rom, ss, a, b) && ss != []
    ensures var n := |ss| - 1;
      var d := SubDigits(ss, a, b);
      && Low(d) == SubDigits(ss[..n], a[..n], b[..n])
      && Value(Low(d)) == Value(Low(a)) - Value(Low(b)) + Times(Power(n), Num(n > 0 && Flag(ss[n], C)))
    decreases |ss|, 0
  {
    hide IsSub, After, Flag, Power, Mod, Times, Step, Fetch;
    var n := |ss| - 1;
    TimesConst(Power(n));
    if n > 0 {
      SubPrefix(rom, ss, a, b);
      SubChainValue(rom, ss[..n], a[..n], b[..n]);
      assert Handed(rom, ss[n - 1], ss[n], C);
    }
  }

  lemma {:induction false} DigitAt(ss: seq<State>, a: seq<byte>, b: seq<byte>, k: nat)
    requires |ss| == |a| == |b| && k < |a|
    ensures SubDigits(ss, a, b)[k] == Mod(a[k] as int - b[k] - Num(k > 0 && Flag(ss[k], C)))
    decreases |a|
  {
    hide Flag, Mod;
    var n := |a| - 1;
    var d, e := SubDigits(ss, a, b), SubDigits(ss[..n], a[..n], b[..n]);
    if k < n {
      DigitAt(ss[..n], a[..n], b[..n], k);
      assert d[k] == e[k] && a[..n][k] == a[k] && b[..n][k] == b[k] && ss[..n][k] == ss[k];
    } else {
      assert d[n] == Mod(a[n] as int - b[n] - Num(n > 0 && Flag(ss[n], C)));
    }
  }

  /** Z survives exactly when it was set and every digit is zero. */
  lemma {:induction false} SubChainZero(rom: Rom, ss: seq<State>, a: seq<byte>, b: seq<byte>)
    requires SubChain(rom, ss, a, b) && ss != []
    ensures var d := SubDigits(ss, a, b);
      Flag(After(rom, ss[|ss| - 1]), Z) == (Flag(ss[0], Z) && AllZero(d))
    decreases |ss|
  {
    hide IsSub, After, Flag, Step, Fetch, Mod, AllZero;
    var n := |ss| - 1;
    var d := SubDigits(ss, a, b);
    SubEffect(rom, ss[n], a[n], b[n], n > 0);
    AllZeroLast(d);
    if n > 0 {
      SubPrefix(rom, ss, a, b);
      SubChainZero(rom, ss[..n], a[..n], b[..n]);
      assert Handed(rom, ss[n - 1], ss[n], Z);
      assert d[..n] == SubDigits(ss[..n], a[..n], b[..n]);
      assert ss[..n][n - 1] == ss[n - 1] && ss[..n][0] == ss[0];
    } else {
      AllZeroNone(d[..0]);
    }
  }

  predicate AllZero(d: seq<byte>) {
    forall k | 0 <= k < |d| :: d[k] == 0
  }

  lemma AllZeroNone(d: seq<byte>)
    requires d == []
    ensures AllZero(d)
  {
  }

  lemma AllZeroLast(d: seq<byte>)
    requires d != []
    ensures var n := |d| - 1; AllZero(d) <==> AllZero(d[..n]) && d[n] == 0
  {
    var n := |d| - 1;
    assert forall k | 0 <= k < n :: d[..n][k] == d[k];
  }

  /** The links that store leave the digits in their registers. */
  lemma SubStored(rom: Rom, ss: seq<State>, a: seq<byte>, b: seq<byte>, k: nat)
    requires SubChain(rom, ss, a, b) && k < |ss| && Fetch(rom, ss[k].pc).value.store
    ensures After(rom, ss[k]).mem[Dest(rom, ss[k])] == SubDigits(ss, a, b)[k]
  {
    hide After, Flag, Fetch, Step, Dest;
    DigitAt(ss, a, b, k);
    assert IsSub(rom, ss[k], a[k], b[k], k > 0);
    SubEffect(rom, ss[k], a[k], b[k], k > 0);
  }

  /** S and V are those of the whole signed numbers, N is the sign of the difference. */
  lemma SubChainSigned(rom: Rom, ss: seq<State>, a: seq<byte>, b: seq<byte>)
    requires SubChain(rom, ss, a, b) && ss != []
    ensures var t := After(rom, ss[|ss| - 1]);
      var half := 128 * Power(|a| - 1);
      && Flag(t, S) == (SignedValue(a) < SignedValue(b))
      && Flag(t, V) == !(-half <= SignedValue(a) - SignedValue(b) < half)
      && Flag(t, N) == (Top(SubDigits(ss, a, b)) >= 128)
  {
    hide IsSub, SubChain, After, Flag, Value, SignedValue, Power, Times, Step, Fetch, Signed, Low, Mod, SubDigits;
    var n := |ss| - 1;
    SubLink(rom, ss, a, b, n);
    SubBorrow(rom, ss, a, b);
    SubTopSigned(a, b, SubDigits(ss, a, b), Num(n > 0 && Flag(ss[n], C)));
    SubEffect(rom, ss[n], a[n], b[n], n > 0);
    DigitAt(ss, a, b, n);
  }

  /** What a SUB/SBC or CP/CPC chain of any length leaves in SREG: the comparison of the whole numbers. */
  lemma SubChainFlags(rom: Rom, ss: seq<State>, a: seq<byte>, b: seq<byte>)
    requires SubChain(rom, ss, a, b) && ss != []
    ensures var t := After(rom, ss[|ss| - 1]);
      var half := 128 * Power(|a| - 1);
      && Flag(t, C) == (Value(a) < Value(b))
      && Flag(t, S) == (SignedValue(a) < SignedValue(b))
      && Flag(t, V) == !(-half <= SignedValue(a) - SignedValue(b) < half)
      && Flag(t, N) == (Top(SubDigits(ss, a, b)) >= 128)
      && Flag(t, Z) == (Flag(ss[0], Z) && Value(a) == Value(b))
  {
    hide SubChain, SubDigits, After, Flag, Value, SignedValue, Power, Top;
    SubChainValue(rom, ss, a, b);
    SubChainSigned(rom, ss, a, b);
    SubChainZero(rom, ss, a, b);
    SubLengths(rom, ss, a, b);
    ZeroValue(SubDigits(ss, a, b));
    ValueBound(a);
    ValueBound(b);
  }

  lemma SubLengths(rom: Rom, ss: seq<State>, a: seq<byte>, b: seq<byte>)
    requires SubChain(rom, ss, a, b)
    ensures |ss| == |a| == |b|
  {
  }

  // ----- branching on the outcome -----

  lemma BranchTaken(rom: Rom, u: State, b: bitno, value: bool, offset: int)
    requires !u.skip && Fetch(rom, u.pc) == Ok(Branch(b, value, offset))
    ensures Step(rom, u).Ok? && After(rom, u).mem == u.mem
    ensures After(rom, u).pc == Wrap(u.pc + 1 + if Flag(u, BitAt(b)) == value then offset else 0)
  {
    hide Fetch, Wrap, Has, BitAt, Flags;
  }

  /** BRBS (or BRBC) on C or S after the chain branches exactly when the n-byte comparison holds (or fails). */
  lemma CompareAndBranch(rom: Rom, ss: seq<State>, a: seq<byte>, b: seq<byte>, u: State, signed: bool, value: bool,
                         offset: int)
    requires SubChain(rom, ss, a, b) && ss != [] && !u.skip
    requires Fetch(rom, u.pc) == Ok(Branch(if signed then 4 else 0, value, offset))
    requires Handed(rom, ss[|ss| - 1], u, if signed then S else C)
    ensures var less := if signed then SignedValue(a) < SignedValue(b) else Value(a) < Value(b);
      Step(rom, u).Ok? && After(rom, u).pc == Wrap(u.pc + 1 + if less == value then offset else 0)
  {
    hide IsSub, After, Flag, Value, SignedValue, Step, Fetch, Wrap;
    SubChainFlags(rom, ss, a, b);
    BranchTaken(rom, u, if signed then 4 else 0, value, offset);
  }

  /** BREQ (value true) or BRNE after the chain: taken as Z says, which is the old Z and equality. */
  lemma EqualAndBranch(rom: Rom, ss: seq<State>, a: seq<byte>, b: seq<byte>, u: State, value: bool, offset: int)
    requires SubChain(rom, ss, a, b) && ss != [] && !u.skip
    requires Fetch(rom, u.pc) == Ok(Branch(1, value, offset)) && Handed(rom, ss[|ss| - 1], u, Z)
    ensures var zero := Flag(ss[0], Z) && Value(a) == Value(b);
      Step(rom, u).Ok? && After(rom, u).pc == Wrap(u.pc + 1 + if zero == value then offset else 0)
  {
    hide IsSub, After, Flag, Value, Step, Fetch, Wrap;
    SubChainFlags(rom, ss, a, b);
    BranchTaken(rom, u, 1, value, offset);
  }

  lemma WrapDiffers(x: u32, offset: int)
    requires -64 <= offset < 64
    ensures Wrap(x + 1 + offset) == Wrap(x + 1) <==> offset == 0
  {
  }

  /** So BREQ and BRNE decide equality of the n-byte numbers exactly when Z was set before the first link or the
      numbers differ; equal numbers compared with Z clear count as different. */
  lemma EqualDecidedIff(rom: Rom, ss: seq<State>, a: seq<byte>, b: seq<byte>, u: State, value: bool, offset: int)
    requires SubChain(rom, ss, a, b) && ss != [] && !u.skip && -64 <= offset < 64 && offset != 0
    requires Fetch(rom, u.pc) == Ok(Branch(1, value, offset)) && Handed(rom, ss[|ss| - 1], u, Z)
    ensures Step(rom, u).Ok?
    ensures After(rom, u).pc == Wrap(u.pc + 1 + if (Value(a) == Value(b)) == value then offset else 0)
       <==> Flag(ss[0], Z) || Value(a) != Value(b)
  {
    hide IsSub, After, Flag, Value, Step, Fetch, Wrap, SubChain, Handed;
    EqualAndBranch(rom, ss, a, b, u, value, offset);
    WrapDiffers(u.pc, offset);
  }

  // ----- addition -----

  /** The states at which the links of an ADD/ADC chain are about to run, with C handed on. */
  ghost predicate AddChain(rom: Rom, ss: seq<State>, a: seq<byte>, b: seq<byte>) {
    && |ss| == |a| == |b|
    && (forall k | 0 <= k < |ss| :: IsAdd(rom, ss[k], a[k], b[k], k > 0))
    && (forall k | 0 < k < |ss| :: Handed(rom, ss[k - 1], ss[k], C))
  }

  /** The bytes the links leave in their destination registers, each read right after its link. */
  ghost function LinkBytes(rom: Rom, ss: seq<State>): (d: seq<byte>)
    ensures |d| == |ss|
  {
    if ss == [] then []
    else
      var n := |ss| - 1;
      LinkBytes(rom, ss[..n]) + [After(rom, ss[n]).mem[Dest(rom, ss[n])]]
  }

  lemma AddPrefix(rom: Rom, ss: seq<State>, a: seq<byte>, b: seq<byte>)
    requires AddChain(rom, ss, a, b) && ss != []
    ensures var n := |ss| - 1; AddChain(rom, ss[..n], a[..n], b[..n])
  {
    hide IsAdd, Handed;
  }

  /** The sum: the registers hold it modulo 256^n, and C is the carry out. */
  lemma {:induction false} AddChainValue(rom: Rom, ss: seq<State>, a: seq<byte>, b: seq<byte>)
    requires AddChain(rom, ss, a, b) && ss != []
    ensures Flag(After(rom, ss[|ss| - 1]), C) == (Value(a) + Value(b) >= Power(|a|))
    ensures Value(LinkBytes(rom, ss))
         == Value(a) + Value(b) - if Value(a) + Value(b) >= Power(|a|) then Power(|a|) else 0
    decreases |ss|
  {
    hide IsAdd, Handed, After, Flag, Value, Power, Times, Step, Fetch, Dest;
    var n := |ss| - 1;
    AddCarry(rom, ss, a, b);
    AddEffect(rom, ss[n], a[n], b[n], n > 0);
    AddTop(a, b, LinkBytes(rom, ss), Num(n > 0 && Flag(ss[n], C)));
  }

  /** The carry into the last link is the overflow of the lower bytes. */
  lemma {:induction false} AddCarry(rom: Rom, ss: seq<State>, a: seq<byte>, b: seq<byte>)
    requires AddChain(rom, ss, a, b) && ss != []
    ensures var n := |ss| - 1;
      var d := LinkBytes(rom, ss);
      Value(Low(d)) == Value(Low(a)) + Value(Low(b)) - Times(Power(n), Num(n > 0 && Flag(ss[n], C)))
    decreases |ss|, 0
  {
    hide IsAdd, After, Flag, Power, Times, Step, Fetch, Dest;
    var n := |ss| - 1;
    TimesConst(Power(n));
    assert Low(LinkBytes(rom, ss)) == LinkBytes(rom, ss[..n]);
    if n > 0 {
      AddPrefix(rom, ss, a, b);
      AddChainValue(rom, ss[..n], a[..n], b[..n]);
      assert Handed(rom, ss[n - 1], ss[n], C);
    }
  }

  /** What an ADD/ADC chain of any length leaves in SREG; Z speaks of the last link's byte alone. */
  lemma AddChainFlags(rom: Rom, ss: seq<State>, a: seq<byte>, b: seq<byte>)
    requires AddChain(rom, ss, a, b) && ss != []
    ensures var t := After(rom, ss[|ss| - 1]);
      var half := 128 * Power(|a| - 1);
      && Flag(t, C) == (Value(a) + Value(b) >= Power(|a|))
      && Flag(t, S) == (SignedValue(a) + SignedValue(b) < 0)
      && Flag(t, V) == !(-half <= SignedValue(a) + SignedValue(b) < half)
      && Flag(t, N) == (Top(LinkBytes(rom, ss)) >= 128)
      && Flag(t, Z) == (Top(LinkBytes(rom, ss)) == 0)
  {
    hide IsAdd, Handed, After, Flag, Value, SignedValue, Power, Times, Step, Fetch, Signed, Dest;
    var n := |ss| - 1;
    AddChainValue(rom, ss, a, b);
    AddCarry(rom, ss, a, b);
    AddTopSigned(a, b, LinkBytes(rom, ss), Num(n > 0 && Flag(ss[n], C)));
    AddEffect(rom, ss[n], a[n], b[n], n > 0);
  }

  // ----- shifting right -----

  /** The states at which LSR or ASR on the top byte, then ROR on each lower byte, are about to run.
      xs holds the bytes, most significant first. */
  ghost predicate ShiftChain(rom: Rom, ss: seq<State>, op: ShiftOp, xs: seq<byte>) {
    && |ss| == |xs| && !op.Ror?
    && (forall k | 0 <= k < |ss| :: IsShift(rom, ss[k], if k == 0 then op else Ror, xs[k]))
    && (forall k | 0 < k < |ss| :: Handed(rom, ss[k - 1], ss[k], C))
  }

  lemma ShiftPrefix(rom: Rom, ss: seq<State>, op: ShiftOp, xs: seq<byte>)
    requires ShiftChain(rom, ss, op, xs) && ss != []
    ensures var n := |ss| - 1; ShiftChain(rom, ss[..n], op, xs[..n])
  {
    hide IsShift, Handed;
  }

  /** Halving a number byte by byte: 256 X + b halved is 256 (X / 2) + b / 2 + 128 (X mod 2). */
  lemma HalfStep(x: int, b: byte, c: bool)
    requires c == (x % 2 == 1)
    ensures (256 * x + b) / 2 == 256 * (x / 2) + (b / 2 + 128 * Num(c)) && (256 * x + b) % 2 == b % 2
  {
  }

  /** The chain halves the whole number, rounding down, and leaves the bit shifted out in C and in S. */
  lemma {:induction false} ShiftChainValue(rom: Rom, ss: seq<State>, op: ShiftOp, xs: seq<byte>)
    requires ShiftChain(rom, ss, op, xs) && ss != []
    ensures var x := BigValue(xs, op == Asr);
      var t := After(rom, ss[|ss| - 1]);
      && BigValue(LinkBytes(rom, ss), op == Asr) == x / 2
      && Flag(t, C) == (x % 2 == 1)
      && Flag(t, S) == Flag(t, C)
    decreases |ss|
  {
    hide After, Flag, Step, Fetch, Dest, IsShift;
    var n := |ss| - 1;
    var d := LinkBytes(rom, ss);
    assert Low(d) == LinkBytes(rom, ss[..n]);
    if n == 0 {
      ShiftEffect(rom, ss[0], op, xs[0]);
    } else {
      ShiftEffect(rom, ss[n], Ror, xs[n]);
      ShiftPrefix(rom, ss, op, xs);
      ShiftChainValue(rom, ss[..n], op, xs[..n]);
      assert Handed(rom, ss[n - 1], ss[n], C);
      HalfStep(BigValue(xs[..n], op == Asr), xs[n], Flag(ss[n], C));
    }
  }

  // ----- word arithmetic -----

  lemma WideMemEffect(m: Memory, p: pair, delta: int)
    requires -64 < delta < 64
    ensures var w, x := WideMem(m, p, delta), WordAt(m, p);
      Flags(w) == WideFlags(Flags(m), x, delta) && WordAt(w, p) == (x as int + delta) % 0x1_0000
  {
    hide WideFlags;
    UnpackPack(WideFlags(Flags(m), WordAt(m, p), delta));
  }

  /** The carry, sign and overflow of a word and of its two bytes taken in turn. */
  lemma WideAdd(lo: byte, hi: byte, k: small)
    ensures var x := lo + 256 * (hi as int);
      var c := Num(lo as int + k >= 256);
      var exact := SignedWord(x) + k;
      && (x + k) % 0x1_0000 == Mod(lo as int + k) + 256 * (Mod(hi as int + c) as int)
      && !(0 <= x + k < 0x1_0000) == (hi as int + c >= 256)
      && ((x + k) % 0x1_0000 >= 0x8000) == (Mod(hi as int + c) >= 128)
      && !(-0x8000 <= exact < 0x8000) == !(-128 <= Signed(hi) + c < 128)
      && (exact < 0) == (Signed(hi) + c < 0)
  {
  }

  lemma WideSub(lo: byte, hi: byte, k: small)
    ensures var x := lo + 256 * (hi as int);
      var c := Num(lo as int - k < 0);
      var exact := SignedWord(x) - k;
      && (x - k) % 0x1_0000 == Mod(lo as int - k) + 256 * (Mod(hi as int - c) as int)
      && !(0 <= x - k < 0x1_0000) == (hi as int - c < 0)
      && ((x - k) % 0x1_0000 >= 0x8000) == (Mod(hi as int - c) >= 128)
      && !(-0x8000 <= exact < 0x8000) == !(-128 <= Signed(hi) - c < 128)
      && (exact < 0) == (Signed(hi) - c < 0)
  {
  }

  lemma WideBits(f: Bits, z: bool, n: bool, v: bool, s: bool, c: bool)
    ensures var g := Assign(ResultFlags(f, z, n, v, s), C, c);
      Has(g, N) == n && Has(g, V) == v && Has(g, S) == s && Has(g, C) == c
  {
  }

  lemma WideOutcome(m: Memory, p: pair, delta: int)
    requires -64 < delta < 64
    ensures var x := WordAt(m, p);
      var sum, exact := x as int + delta, SignedWord(x) + delta;
      Outcome4(WideMem(m, p, delta))
      == (!(0 <= sum < 0x1_0000), sum % 0x1_0000 >= 0x8000, !(-0x8000 <= exact < 0x8000), exact < 0)
  {
    hide Flags, Has, Assign, ResultFlags, WideMem, SignedWord, WordAt;
    WideMemEffect(m, p, delta);
    var x := WordAt(m, p);
    var sum, exact := x as int + delta, SignedWord(x) + delta;
    WideBits(Flags(m), sum % 0x1_0000 == 0, sum % 0x1_0000 >= 0x8000, !(-0x8000 <= exact < 0x8000), exact < 0,
             !(0 <= sum < 0x1_0000));
  }

  /** ADIW computes what adding k to the low byte and the carry to the high byte would, with the same C, N, V and S. */
  lemma AdiwIsChain(m: Memory, p: pair, k: small)
    ensures var m1 := AddMem(m, p, k, 0);
      var m2 := AddMem(m1, p + 1, 0, Num(Has(Flags(m1), C)));
      var w := WideMem(m, p, k);
      WordAt(w, p) == WordAt(m2, p) && Outcome4(w) == Outcome4(m2)
  {
    hide Flags, Has, AddFlags, Signed, SignedWord, WideMem, SetFlags, AddMem, Mod;
    var m1 := AddMem(m, p, k, 0);
    AddOutcome(m, p, k, 0);
    var c := Num(Has(Flags(m1), C));
    AddCells(m, p, k, 0);
    AddCells(m1, p + 1, 0, c);
    AddOutcome(m1, p + 1, 0, c);
    WideOutcome(m, p, k);
    WideMemEffect(m, p, k);
    WideAdd(m[p], m[p + 1], k);
    SignedZero();
  }

  lemma SignedZero()
    ensures Signed(0) == 0
  {
  }

  lemma AddCells(m: Memory, d: reg, b: byte, c: nat)
    requires c <= 1
    ensures var m1 := AddMem(m, d, b, c);
      forall a | 0 <= a < 32 && a != d :: m1[a] == m[a]
  {
    hide Pack, AddFlags;
  }

  lemma SubCells(m: Memory, d: reg, b: byte, c: nat, zIn: bool)
    requires c <= 1
    ensures var m1 := SubMem(m, d, b, c, true, zIn);
      forall a | 0 <= a < 32 && a != d :: m1[a] == m[a]
  {
    hide Pack, SubFlags;
  }

  /** SBIW computes what SUBI k on the low byte and SBCI 0 on the high byte would, with the same C, N, V and S. */
  lemma SbiwIsChain(rom: Rom, m: Memory, p: pair, k: small)
    ensures var m1 := AluMem(rom, SubImm(p, k, false, true), m);
      var m2 := AluMem(rom, SubImm(p + 1, 0, true, true), m1);
      var w := AluMem(rom, Sbiw(p, k), m);
      WordAt(w, p) == WordAt(m2, p) && Outcome4(w) == Outcome4(m2)
  {
    hide Flags, Has, SubFlags, Signed, SignedWord, WideMem, SetFlags, SubMem, Mod;
    var m1 := SubMem(m, p, k, 0, true, true);
    SubOutcome(m, p, k, 0, true, true);
    var c := Num(Has(Flags(m1), C));
    SubCells(m, p, k, 0, true);
    SubCells(m1, p + 1, 0, c, true);
    SubOutcome(m1, p + 1, 0, c, true, true);
    WideOutcome(m, p, 0 - k as int);
    WideMemEffect(m, p, 0 - k as int);
    WideSub(m[p], m[p + 1], k);
    SignedZero();
  }
}
