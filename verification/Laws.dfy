/**
 What each arithmetic, logic and bit instruction does to the machine, one step at
 a time, in the manual's terms: registers as numbers, SREG bit by bit at its
 address, and everything else untouched.

 The laws name no part of the step function but the step itself.
 */
module Laws {
  import opened Bytes
  import opened Isa
  import opened Alu
  import opened Cpu
  import opened Assembler
  import opened Fields

  /** The machine is about to run instruction i. */
  predicate Runs(rom: Rom, s: State, i: Insn) {
    !s.skip && Fetch(rom, s.pc) == Ok(i)
  }

  // SREG, at 0x5f: bit 0 is C, then Z, N, V, S, H, T and I.
  predicate CarryOf(s: State) { Bit(s.mem[0x5f], 0) }
  predicate ZeroOf(s: State) { Bit(s.mem[0x5f], 1) }
  predicate NegativeOf(s: State) { Bit(s.mem[0x5f], 2) }
  predicate OverflowOf(s: State) { Bit(s.mem[0x5f], 3) }
  predicate SignOf(s: State) { Bit(s.mem[0x5f], 4) }
  predicate HalfOf(s: State) { Bit(s.mem[0x5f], 5) }
  predicate TransferOf(s: State) { Bit(s.mem[0x5f], 6) }
  predicate InterruptOf(s: State) { Bit(s.mem[0x5f], 7) }

  /** From s to t: on to the next word, and no byte outside the given cells has changed. */
  predicate OnlyWrites(s: State, t: State, cells: set<int>) {
    t.pc == s.pc + 1 && !t.skip && forall x | 0 <= x < MEM_SIZE && x !in cells :: t.mem[x] == s.mem[x]
  }

  /** Z, N, V and S are as given; T and I are kept. */
  predicate ResultIs(s: State, t: State, z: bool, n: bool, v: bool, sign: bool) {
    && ZeroOf(t) == z && NegativeOf(t) == n && OverflowOf(t) == v && SignOf(t) == sign
    && TransferOf(t) == TransferOf(s) && InterruptOf(t) == InterruptOf(s)
  }

  // ----- SREG as a number and as bits -----

  lemma BitOfPack(f: Bits, k: nat)
    requires k < 8
    ensures Bit(Pack(f), k) == Has(f, BitAt(k))
  {
    hide Bit, BitAt, Has, Pack, UnpackLow;
    BitOfUnpack(Pack(f), k);
    UnpackPack(f);
  }

  lemma BitOfUnpack(x: byte, k: nat)
    requires k < 8
    ensures Has(Unpack(x), BitAt(k)) == Bit(x, k)
  {
    hide Bit, BitAt, Has, UnpackLow;
    BitAtPlace(x, 8, k);
    BitDivides(x, k);
  }

  lemma MaskNames()
    ensures BitAt(0) == C && BitAt(1) == Z && BitAt(2) == N && BitAt(3) == V
    ensures BitAt(4) == S && BitAt(5) == H && BitAt(6) == T && BitAt(7) == I
  {
  }

  /** The named bits of a byte. */
  predicate BitsAre(x: byte, f: Bits) {
    && Bit(x, 0) == Has(f, C) && Bit(x, 1) == Has(f, Z) && Bit(x, 2) == Has(f, N) && Bit(x, 3) == Has(f, V)
    && Bit(x, 4) == Has(f, S) && Bit(x, 5) == Has(f, H) && Bit(x, 6) == Has(f, T) && Bit(x, 7) == Has(f, I)
  }

  lemma PackedBits(f: Bits)
    ensures BitsAre(Pack(f), f)
  {
    hide Bit, BitAt, Has, Pack;
    MaskNames();
    BitOfPack(f, 0);
    BitOfPack(f, 1);
    BitOfPack(f, 2);
    BitOfPack(f, 3);
    BitOfPack(f, 4);
    BitOfPack(f, 5);
    BitOfPack(f, 6);
    BitOfPack(f, 7);
  }

  lemma UnpackedBits(x: byte)
    ensures BitsAre(x, Unpack(x))
  {
    hide Bit, BitAt, Has, UnpackLow;
    MaskNames();
    BitOfUnpack(x, 0);
    BitOfUnpack(x, 1);
    BitOfUnpack(x, 2);
    BitOfUnpack(x, 3);
    BitOfUnpack(x, 4);
    BitOfUnpack(x, 5);
    BitOfUnpack(x, 6);
    BitOfUnpack(x, 7);
  }

  // One flag at a time.
  lemma CarryBit(g: Bits, b: bool)
    ensures var h := Assign(g, C, b);
      && Has(h, C) == b && Has(h, Z) == Has(g, Z) && Has(h, N) == Has(g, N) && Has(h, V) == Has(g, V)
      && Has(h, S) == Has(g, S) && Has(h, H) == Has(g, H) && Has(h, T) == Has(g, T) && Has(h, I) == Has(g, I)
  {
  }

  lemma ZeroBit(g: Bits, b: bool)
    ensures var h := Assign(g, Z, b);
      && Has(h, Z) == b && Has(h, C) == Has(g, C) && Has(h, N) == Has(g, N) && Has(h, V) == Has(g, V)
      && Has(h, S) == Has(g, S) && Has(h, H) == Has(g, H) && Has(h, T) == Has(g, T) && Has(h, I) == Has(g, I)
  {
  }

  lemma NegativeBit(g: Bits, b: bool)
    ensures var h := Assign(g, N, b);
      && Has(h, N) == b && Has(h, C) == Has(g, C) && Has(h, Z) == Has(g, Z) && Has(h, V) == Has(g, V)
      && Has(h, S) == Has(g, S) && Has(h, H) == Has(g, H) && Has(h, T) == Has(g, T) && Has(h, I) == Has(g, I)
  {
  }

  lemma OverflowBit(g: Bits, b: bool)
    ensures var h := Assign(g, V, b);
      && Has(h, V) == b && Has(h, C) == Has(g, C) && Has(h, Z) == Has(g, Z) && Has(h, N) == Has(g, N)
      && Has(h, S) == Has(g, S) && Has(h, H) == Has(g, H) && Has(h, T) == Has(g, T) && Has(h, I) == Has(g, I)
  {
  }

  lemma SignBit(g: Bits, b: bool)
    ensures var h := Assign(g, S, b);
      && Has(h, S) == b && Has(h, C) == Has(g, C) && Has(h, Z) == Has(g, Z) && Has(h, N) == Has(g, N)
      && Has(h, V) == Has(g, V) && Has(h, H) == Has(g, H) && Has(h, T) == Has(g, T) && Has(h, I) == Has(g, I)
  {
  }

  lemma HalfBit(g: Bits, b: bool)
    ensures var h := Assign(g, H, b);
      && Has(h, H) == b && Has(h, C) == Has(g, C) && Has(h, Z) == Has(g, Z) && Has(h, N) == Has(g, N)
      && Has(h, V) == Has(g, V) && Has(h, S) == Has(g, S) && Has(h, T) == Has(g, T) && Has(h, I) == Has(g, I)
  {
  }

  lemma ResultBits(f: Bits, z: bool, n: bool, v: bool, s: bool)
    ensures var g := ResultFlags(f, z, n, v, s);
      && Has(g, Z) == z && Has(g, N) == n && Has(g, V) == v && Has(g, S) == s
      && Has(g, C) == Has(f, C) && Has(g, H) == Has(f, H) && Has(g, T) == Has(f, T) && Has(g, I) == Has(f, I)
  {
    hide Assign, Has;
    var g1 := Assign(f, Z, z);
    var g2 := Assign(g1, N, n);
    var g3 := Assign(g2, V, v);
    ZeroBit(f, z);
    NegativeBit(g1, n);
    OverflowBit(g2, v);
    SignBit(g3, s);
  }

  /** SREG after an operation that sets C, Z, N, V, S and H. */
  lemma FullSreg(x: byte, z: bool, n: bool, v: bool, s: bool, c: bool, h: bool)
    ensures var y := Pack(Assign(Assign(ResultFlags(Unpack(x), z, n, v, s), C, c), H, h));
      && Bit(y, 0) == c && Bit(y, 1) == z && Bit(y, 2) == n && Bit(y, 3) == v && Bit(y, 4) == s && Bit(y, 5) == h
      && Bit(y, 6) == Bit(x, 6) && Bit(y, 7) == Bit(x, 7)
  {
    hide Bit, Has, Pack, Unpack, Assign, ResultFlags;
    var g := ResultFlags(Unpack(x), z, n, v, s);
    UnpackedBits(x);
    ResultBits(Unpack(x), z, n, v, s);
    CarryBit(g, c);
    HalfBit(Assign(g, C, c), h);
    PackedBits(Assign(Assign(g, C, c), H, h));
  }

  /** SREG after one that keeps H. */
  lemma CarrySreg(x: byte, z: bool, n: bool, v: bool, s: bool, c: bool)
    ensures var y := Pack(Assign(ResultFlags(Unpack(x), z, n, v, s), C, c));
      && Bit(y, 0) == c && Bit(y, 1) == z && Bit(y, 2) == n && Bit(y, 3) == v && Bit(y, 4) == s
      && Bit(y, 5) == Bit(x, 5) && Bit(y, 6) == Bit(x, 6) && Bit(y, 7) == Bit(x, 7)
  {
    hide Bit, Has, Pack, Unpack, Assign, ResultFlags;
    var g := ResultFlags(Unpack(x), z, n, v, s);
    UnpackedBits(x);
    ResultBits(Unpack(x), z, n, v, s);
    CarryBit(g, c);
    PackedBits(Assign(g, C, c));
  }

  /** SREG after one that keeps C and H. */
  lemma PlainSreg(x: byte, z: bool, n: bool, v: bool, s: bool)
    ensures var y := Pack(ResultFlags(Unpack(x), z, n, v, s));
      && Bit(y, 1) == z && Bit(y, 2) == n && Bit(y, 3) == v && Bit(y, 4) == s
      && Bit(y, 0) == Bit(x, 0) && Bit(y, 5) == Bit(x, 5) && Bit(y, 6) == Bit(x, 6) && Bit(y, 7) == Bit(x, 7)
  {
    hide Bit, Has, Pack, Unpack, ResultFlags;
    UnpackedBits(x);
    ResultBits(Unpack(x), z, n, v, s);
    PackedBits(ResultFlags(Unpack(x), z, n, v, s));
  }

  /** SREG after a multiplication. */
  lemma ProductSreg(x: byte, c: bool, z: bool)
    ensures var y := Pack(Assign(Assign(Unpack(x), C, c), Z, z));
      && Bit(y, 0) == c && Bit(y, 1) == z && Bit(y, 2) == Bit(x, 2) && Bit(y, 3) == Bit(x, 3)
      && Bit(y, 4) == Bit(x, 4) && Bit(y, 5) == Bit(x, 5) && Bit(y, 6) == Bit(x, 6) && Bit(y, 7) == Bit(x, 7)
  {
    hide Bit, Has, Pack, Unpack, Assign;
    var f := Unpack(x);
    UnpackedBits(x);
    CarryBit(f, c);
    ZeroBit(Assign(f, C, c), z);
    PackedBits(Assign(Assign(f, C, c), Z, z));
  }

  // ----- one ALU step -----

  /** An ALU instruction: what memory is, and that pc moves on by one. */
  lemma AluRuns(rom: Rom, s: State, i: Insn)
    requires Runs(rom, s, i) && OnlyAlu(i)
    ensures Step(rom, s).Ok?
    ensures var t := Step(rom, s).value; t.mem == AluMem(rom, i, s.mem) && t.pc == s.pc + 1 && !t.skip
  {
    hide Fetch, AluMem, MemAfter, PcAfter, SkipAfter, Faults, OnlyAlu, Wrap, Size;
    OnlyAluShape(rom, i, s);
    AluShort(i);
    FetchedInFlash(rom, s.pc);
    WrapSmall(s.pc + 1);
  }

  lemma AluShort(i: Insn)
    requires OnlyAlu(i)
    ensures Size(i) == 1
  {
  }

  lemma FetchedInFlash(rom: Rom, pc: u32)
    requires Fetch(rom, pc).Ok?
    ensures pc < FLASH_SIZE
  {
    hide Lookup, Decode;
  }

  // ----- addition and subtraction -----

  /** Register d and the flags after adding b and c to it. */
  predicate Added(s: State, t: State, d: reg, b: byte, c: nat) {
    var a, res := s.mem[d], t.mem[d];
    var exact := Signed(a) + Signed(b) + c;
    && (res == a as int + b + c || res == a as int + b + c - 256) && OnlyWrites(s, t, {d as int, 0x5f})
    && ResultIs(s, t, res == 0, res >= 128, !(-128 <= exact < 128), exact < 0)
    && CarryOf(t) == (a as int + b + c >= 256) && HalfOf(t) == (a % 16 + b % 16 + c >= 16)
  }

  /** ADD and ADC. */
  lemma AddLaw(rom: Rom, s: State, d: reg, r: reg, carry: bool)
    requires Runs(rom, s, Add(d, r, carry))
    ensures Step(rom, s).Ok?
    ensures Added(s, Step(rom, s).value, d, s.mem[r], if carry && CarryOf(s) then 1 else 0)
  {
    hide Fetch, Step, AluMem, Bit, Has, Pack, Unpack, AddResult, Added;
    AluRuns(rom, s, Add(d, r, carry));
    UnpackedBits(s.mem[SREG]);
    AddMemIs(rom, s.mem, d, r, carry);
    AddResultIs(s, Step(rom, s).value, d, s.mem[r], Num(carry && Has(Flags(s.mem), C)));
  }

  /** Memory after adding b and c to register d. */
  function AddResult(m: Memory, d: reg, b: byte, c: nat): (r: Memory)
    requires c <= 1
  {
    m[d := (m[d] as int + b + c) % 256][SREG := Pack(AddFlags(Flags(m), m[d], b, c))]
  }

  lemma AddResultIs(s: State, t: State, d: reg, b: byte, c: nat)
    requires c <= 1 && t.mem == AddResult(s.mem, d, b, c) && t.pc == s.pc + 1 && !t.skip
    ensures Added(s, t, d, b, c)
  {
    hide Bit, Has, Pack, Unpack, Assign, ResultFlags, Signed;
    var a := s.mem[d];
    var sum, exact := a as int + b + c, Signed(a) + Signed(b) + c;
    FullSreg(s.mem[SREG], sum % 256 == 0, sum % 256 >= 128, !(-128 <= exact < 128), exact < 0, sum >= 256,
             a % 16 + b % 16 + c >= 16);
  }

  lemma AddMemIs(rom: Rom, m: Memory, d: reg, r: reg, carry: bool)
    ensures var c := Num(carry && Has(Flags(m), C));
      AluMem(rom, Add(d, r, carry), m) == AddResult(m, d, m[r], c)
  {
    hide Pack, AddFlags, Has, Unpack;
  }

  /** Memory after a subtraction of b with borrow c from register d. */
  function SubResult(m: Memory, d: reg, b: byte, c: nat, store: bool, zIn: bool): (r: Memory)
    requires c <= 1
  {
    (if store then m[d := (m[d] as int - b - c) % 256] else m)[SREG := Pack(SubFlags(Flags(m), m[d], b, c, zIn))]
  }

  lemma SubMemIs(rom: Rom, m: Memory, d: reg, r: reg, carry: bool, store: bool)
    ensures var c := Num(carry && Has(Flags(m), C));
      AluMem(rom, Sub(d, r, carry, store), m) == SubResult(m, d, m[r], c, store, Has(Flags(m), Z))
  {
    hide Pack, SubFlags, Has, Unpack;
  }

  lemma SubImmMemIs(rom: Rom, m: Memory, d: reg, k: byte, carry: bool, store: bool)
    ensures var c := Num(carry && Has(Flags(m), C));
      AluMem(rom, SubImm(d, k, carry, store), m) == SubResult(m, d, k, c, store, true)
  {
    hide Pack, SubFlags, Has, Unpack;
  }

  /** The flags and the register of a - b - c, where diff is its byte; Z is what the caller says. */
  predicate Subtracted(s: State, t: State, d: reg, b: byte, c: nat, store: bool, diff: byte, z: bool) {
    var a := s.mem[d];
    var exact := Signed(a) - Signed(b) - c;
    && (diff == a as int - b - c || diff == a as int - b - c + 256)
    && t.mem[d] == (if store then diff else a) && OnlyWrites(s, t, {d as int, 0x5f})
    && ResultIs(s, t, z, diff >= 128, !(-128 <= exact < 128), exact < 0)
    && CarryOf(t) == (a as int - b - c < 0) && HalfOf(t) == (a % 16 - b % 16 - c < 0)
  }

  lemma SubResultIs(s: State, t: State, d: reg, b: byte, c: nat, store: bool, zIn: bool)
    requires c <= 1 && t.mem == SubResult(s.mem, d, b, c, store, zIn) && t.pc == s.pc + 1 && !t.skip
    ensures var diff: byte := (s.mem[d] as int - b - c) % 256; Subtracted(s, t, d, b, c, store, diff, zIn && diff == 0)
  {
    hide Bit, Has, Pack, Unpack, Assign, ResultFlags, Signed;
    var a := s.mem[d];
    var diff, exact := a as int - b - c, Signed(a) - Signed(b) - c;
    FullSreg(s.mem[SREG], zIn && diff % 256 == 0, diff % 256 >= 128, !(-128 <= exact < 128), exact < 0, diff < 0,
             a % 16 - b % 16 - c < 0);
  }

  /** CP, CPC, SUB and SBC: Z is kept if the difference is 0, and cleared otherwise. */
  lemma SubLaw(rom: Rom, s: State, d: reg, r: reg, carry: bool, store: bool)
    requires Runs(rom, s, Sub(d, r, carry, store))
    ensures Step(rom, s).Ok?
    ensures var c := if carry && CarryOf(s) then 1 else 0;
      var diff: byte := (s.mem[d] as int - s.mem[r] - c) % 256;
      Subtracted(s, Step(rom, s).value, d, s.mem[r], c, store, diff, ZeroOf(s) && diff == 0)
  {
    hide Fetch, Step, AluMem, Bit, Has, Pack, Unpack, SubResult, Subtracted;
    AluRuns(rom, s, Sub(d, r, carry, store));
    UnpackedBits(s.mem[SREG]);
    SubMemIs(rom, s.mem, d, r, carry, store);
    var f := Flags(s.mem);
    SubResultIs(s, Step(rom, s).value, d, s.mem[r], Num(carry && Has(f, C)), store, Has(f, Z));
  }

  /** CPI, SUBI and SBCI: Z is set exactly when the difference is 0. */
  lemma SubImmLaw(rom: Rom, s: State, d: reg, k: byte, carry: bool, store: bool)
    requires Runs(rom, s, SubImm(d, k, carry, store))
    ensures Step(rom, s).Ok?
    ensures var c := if carry && CarryOf(s) then 1 else 0;
      var diff: byte := (s.mem[d] as int - k - c) % 256;
      Subtracted(s, Step(rom, s).value, d, k, c, store, diff, diff == 0)
  {
    hide Fetch, Step, AluMem, Bit, Has, Pack, Unpack, SubResult, Subtracted;
    AluRuns(rom, s, SubImm(d, k, carry, store));
    UnpackedBits(s.mem[SREG]);
    SubImmMemIs(rom, s.mem, d, k, carry, store);
    SubResultIs(s, Step(rom, s).value, d, k, Num(carry && Has(Flags(s.mem), C)), store, true);
  }

  /** NEG. */
  lemma NegLaw(rom: Rom, s: State, d: reg)
    requires Runs(rom, s, Neg(d))
    ensures Step(rom, s).Ok?
    ensures var t, a := Step(rom, s).value, s.mem[d];
      var res := t.mem[d];
      && (if a == 0 then res == 0 else res == 256 - a as int) && OnlyWrites(s, t, {d as int, 0x5f})
      && ResultIs(s, t, res == 0, res >= 128, res == 128, (res >= 128) != (res == 128))
      && CarryOf(t) == (res != 0) && HalfOf(t) == (a % 16 != 0)
  {
    hide Fetch, Step, AluMem, Bit, Has, Pack, Unpack, Assign, ResultFlags;
    AluRuns(rom, s, Neg(d));
    NegMemIs(rom, s.mem, d);
    var a := s.mem[d];
    var diff, exact := 0 - a as int, Signed(0) - Signed(a);
    FullSreg(s.mem[SREG], diff % 256 == 0, diff % 256 >= 128, !(-128 <= exact < 128), exact < 0, diff < 0,
             0 - a as int % 16 < 0);
  }

  lemma NegMemIs(rom: Rom, m: Memory, d: reg)
    ensures AluMem(rom, Neg(d), m)
         == m[d := (0 - m[d] as int) % 256][SREG := Pack(SubFlags(Flags(m), 0, m[d], 0, true))]
  {
    hide Pack, SubFlags, Unpack;
  }

  /** INC: C and H are kept. */
  lemma IncLaw(rom: Rom, s: State, d: reg)
    requires Runs(rom, s, Inc(d))
    ensures Step(rom, s).Ok?
    ensures var t, a := Step(rom, s).value, s.mem[d];
      var res := t.mem[d];
      && res == (if a == 255 then 0 else a + 1) && OnlyWrites(s, t, {d as int, 0x5f})
      && ResultIs(s, t, res == 0, res >= 128, a == 127, (res >= 128) != (a == 127))
      && CarryOf(t) == CarryOf(s) && HalfOf(t) == HalfOf(s)
  {
    hide Fetch, Step, AluMem, Bit, Has, Pack, Unpack, Assign, ResultFlags;
    AluRuns(rom, s, Inc(d));
    IncMemIs(rom, s.mem, d);
    StepSreg(s.mem[SREG], s.mem[d], 1);
  }

  lemma IncMemIs(rom: Rom, m: Memory, d: reg)
    ensures AluMem(rom, Inc(d), m) == m[d := (m[d] as int + 1) % 256][SREG := Pack(StepFlags(Flags(m), m[d], 1))]
  {
    hide Pack, StepFlags, Unpack;
  }

  lemma DecMemIs(rom: Rom, m: Memory, d: reg)
    ensures AluMem(rom, Dec(d), m) == m[d := (m[d] as int - 1) % 256][SREG := Pack(StepFlags(Flags(m), m[d], -1))]
  {
    hide Pack, StepFlags, Unpack;
  }

  lemma StepSreg(x: byte, a: byte, delta: int)
    requires -1 <= delta <= 1
    ensures var y, exact := Pack(StepFlags(Unpack(x), a, delta)), Signed(a) + delta;
      && Bit(y, 1) == ((a as int + delta) % 256 == 0) && Bit(y, 2) == ((a as int + delta) % 256 >= 128)
      && Bit(y, 3) == !(-128 <= exact < 128) && Bit(y, 4) == (exact < 0)
      && Bit(y, 0) == Bit(x, 0) && Bit(y, 5) == Bit(x, 5) && Bit(y, 6) == Bit(x, 6) && Bit(y, 7) == Bit(x, 7)
  {
    hide Bit, Has, Pack, Unpack, Assign, ResultFlags;
    var exact := Signed(a) + delta;
    PlainSreg(x, (a as int + delta) % 256 == 0, (a as int + delta) % 256 >= 128, !(-128 <= exact < 128), exact < 0);
  }

  /** DEC: C and H are kept. */
  lemma DecLaw(rom: Rom, s: State, d: reg)
    requires Runs(rom, s, Dec(d))
    ensures Step(rom, s).Ok?
    ensures var t, a := Step(rom, s).value, s.mem[d];
      var res := t.mem[d];
      && res == (if a == 0 then 255 else a - 1) && OnlyWrites(s, t, {d as int, 0x5f})
      && ResultIs(s, t, res == 0, res >= 128, a == 128, (res >= 128) != (a == 128))
      && CarryOf(t) == CarryOf(s) && HalfOf(t) == HalfOf(s)
  {
    hide Fetch, Step, AluMem, Bit, Has, Pack, Unpack, Assign, ResultFlags;
    AluRuns(rom, s, Dec(d));
    DecMemIs(rom, s.mem, d);
    StepSreg(s.mem[SREG], s.mem[d], -1);
  }

  // ----- logic -----

  /** The result and the flags of a logic operation whose byte is res: C and H are kept, V is cleared. */
  predicate LogicDone(s: State, t: State, d: reg) {
    var res := t.mem[d];
    && OnlyWrites(s, t, {d as int, 0x5f}) && ResultIs(s, t, res == 0, res >= 128, false, res >= 128)
    && CarryOf(t) == CarryOf(s) && HalfOf(t) == HalfOf(s)
  }

  /** Bit k of the result of op on bytes with bits x and y there. */
  predicate LogicBit(op: LogicOp, x: bool, y: bool) {
    match op
    case AndOp => x && y
    case OrOp => x || y
    case XorOp => x != y
  }

  lemma AndHas(f: Bits, g: Bits, k: nat)
    requires k < 8
    ensures Has(f & g, BitAt(k)) == (Has(f, BitAt(k)) && Has(g, BitAt(k)))
  {
  }

  lemma OrHas(f: Bits, g: Bits, k: nat)
    requires k < 8
    ensures Has(f | g, BitAt(k)) == (Has(f, BitAt(k)) || Has(g, BitAt(k)))
  {
  }

  lemma XorHas(f: Bits, g: Bits, k: nat)
    requires k < 8
    ensures Has(f ^ g, BitAt(k)) == (Has(f, BitAt(k)) != Has(g, BitAt(k)))
  {
  }

  lemma NotHas(f: Bits, k: nat)
    requires k < 8
    ensures Has(!f, BitAt(k)) == !Has(f, BitAt(k))
  {
  }

  lemma AndBit(a: byte, b: byte, k: nat)
    requires k < 8
    ensures Bit(Apply(AndOp, a, b), k) == (Bit(a, k) && Bit(b, k))
  {
    hide Bit, Has, BitAt, Pack, Unpack;
    BitOfUnpack(a, k);
    BitOfUnpack(b, k);
    AndHas(Unpack(a), Unpack(b), k);
    BitOfPack(Unpack(a) & Unpack(b), k);
  }

  lemma OrBit(a: byte, b: byte, k: nat)
    requires k < 8
    ensures Bit(Apply(OrOp, a, b), k) == (Bit(a, k) || Bit(b, k))
  {
    hide Bit, Has, BitAt, Pack, Unpack;
    BitOfUnpack(a, k);
    BitOfUnpack(b, k);
    OrHas(Unpack(a), Unpack(b), k);
    BitOfPack(Unpack(a) | Unpack(b), k);
  }

  lemma XorBit(a: byte, b: byte, k: nat)
    requires k < 8
    ensures Bit(Apply(XorOp, a, b), k) == (Bit(a, k) != Bit(b, k))
  {
    hide Bit, Has, BitAt, Pack, Unpack;
    BitOfUnpack(a, k);
    BitOfUnpack(b, k);
    XorHas(Unpack(a), Unpack(b), k);
    BitOfPack(Unpack(a) ^ Unpack(b), k);
  }

  lemma ApplyBit(op: LogicOp, a: byte, b: byte, k: nat)
    requires k < 8
    ensures Bit(Apply(op, a, b), k) == LogicBit(op, Bit(a, k), Bit(b, k))
  {
    hide Bit, Apply;
    AndBit(a, b, k);
    OrBit(a, b, k);
    XorBit(a, b, k);
  }

  lemma ClearedBit(a: byte, b: byte, k: nat)
    requires k < 8
    ensures Bit(Cleared(a, b), k) == (Bit(a, k) && !Bit(b, k))
  {
    hide Bit, Has, BitAt, Pack, Unpack;
    BitOfUnpack(a, k);
    BitOfUnpack(b, k);
    NotHas(Unpack(b), k);
    AndHas(Unpack(a), !Unpack(b), k);
    BitOfPack(Unpack(a) & !Unpack(b), k);
  }

  lemma LogicSteps(rom: Rom, s: State, i: Insn, d: reg, res: byte)
    requires Runs(rom, s, i) && OnlyAlu(i)
    requires AluMem(rom, i, s.mem) == s.mem[d := res][SREG := Pack(LogicFlags(Flags(s.mem), res))]
    ensures Step(rom, s).Ok? && Step(rom, s).value.mem[d] == res && LogicDone(s, Step(rom, s).value, d)
  {
    hide Fetch, Step, AluMem, Pack, LogicFlags, LogicDone, OnlyAlu, Unpack;
    AluRuns(rom, s, i);
    LogicResultIs(s, Step(rom, s).value, d, res);
  }

  lemma LogicResultIs(s: State, t: State, d: reg, res: byte)
    requires t.mem == s.mem[d := res][SREG := Pack(LogicFlags(Flags(s.mem), res))] && t.pc == s.pc + 1 && !t.skip
    ensures LogicDone(s, t, d)
  {
    hide Bit, Has, Pack, Unpack, Assign, ResultFlags;
    PlainSreg(s.mem[SREG], res == 0, res >= 128, false, res >= 128);
  }

  /** AND, OR and EOR. */
  lemma LogicLaw(rom: Rom, s: State, op: LogicOp, d: reg, r: reg)
    requires Runs(rom, s, Logic(op, d, r))
    ensures Step(rom, s).Ok? && LogicDone(s, Step(rom, s).value, d)
    ensures forall k: nat | k < 8 ::
      Bit(Step(rom, s).value.mem[d], k) == LogicBit(op, Bit(s.mem[d], k), Bit(s.mem[r], k))
  {
    hide Fetch, Step, Bit, Apply, Pack, LogicFlags, LogicDone, LogicBit;
    LogicSteps(rom, s, Logic(op, d, r), d, Apply(op, s.mem[d], s.mem[r]));
    forall k: nat | k < 8
      ensures Bit(Apply(op, s.mem[d], s.mem[r]), k) == LogicBit(op, Bit(s.mem[d], k), Bit(s.mem[r], k))
    {
      ApplyBit(op, s.mem[d], s.mem[r], k);
    }
  }

  /** ANDI and ORI. */
  lemma LogicImmLaw(rom: Rom, s: State, op: LogicOp, d: reg, v: byte)
    requires Runs(rom, s, LogicImm(op, d, v))
    ensures Step(rom, s).Ok? && LogicDone(s, Step(rom, s).value, d)
    ensures forall k: nat | k < 8 :: Bit(Step(rom, s).value.mem[d], k) == LogicBit(op, Bit(s.mem[d], k), Bit(v, k))
  {
    hide Fetch, Step, Bit, Apply, Pack, LogicFlags, LogicDone, LogicBit;
    LogicSteps(rom, s, LogicImm(op, d, v), d, Apply(op, s.mem[d], v));
    forall k: nat | k < 8
      ensures Bit(Apply(op, s.mem[d], v), k) == LogicBit(op, Bit(s.mem[d], k), Bit(v, k))
    {
      ApplyBit(op, s.mem[d], v, k);
    }
  }

  /** COM: logic flags, with C set. */
  lemma ComLaw(rom: Rom, s: State, d: reg)
    requires Runs(rom, s, Com(d))
    ensures Step(rom, s).Ok?
    ensures var t := Step(rom, s).value;
      var res := t.mem[d];
      && res == 255 - s.mem[d] as int && OnlyWrites(s, t, {d as int, 0x5f})
      && ResultIs(s, t, res == 0, res >= 128, false, res >= 128) && CarryOf(t) && HalfOf(t) == HalfOf(s)
  {
    hide Fetch, Step, AluMem, Bit, Has, Pack, Unpack, Assign, ResultFlags;
    AluRuns(rom, s, Com(d));
    ComMemIs(rom, s.mem, d);
    var res: byte := 255 - s.mem[d];
    CarrySreg(s.mem[SREG], res == 0, res >= 128, false, res >= 128, true);
  }

  lemma ComMemIs(rom: Rom, m: Memory, d: reg)
    ensures AluMem(rom, Com(d), m)
         == m[d := 255 - m[d]][SREG := Pack(Assign(LogicFlags(Flags(m), 255 - m[d]), C, true))]
  {
    hide Pack, LogicFlags, Unpack, Assign;
  }

  // ----- shifts -----

  /** LSR, ASR and ROR: V is N xor C, so S is the bit shifted out. */
  lemma ShiftLaw(rom: Rom, s: State, op: ShiftOp, d: reg)
    requires Runs(rom, s, Shift(op, d))
    ensures Step(rom, s).Ok?
    ensures var t, a := Step(rom, s).value, s.mem[d];
      var res, out := t.mem[d], a % 2 == 1;
      var top := match op case Lsr => false case Asr => a >= 128 case Ror => CarryOf(s);
      && res == a / 2 + (if top then 128 else 0) && OnlyWrites(s, t, {d as int, 0x5f})
      && ResultIs(s, t, res == 0, res >= 128, (res >= 128) != out, out) && CarryOf(t) == out && HalfOf(t) == HalfOf(s)
  {
    hide Fetch, Step, AluMem, Bit, Has, Pack, Unpack, Assign, ResultFlags;
    AluRuns(rom, s, Shift(op, d));
    UnpackedBits(s.mem[SREG]);
    ShiftMemIs(rom, s.mem, op, d);
    var res, out := Shifted(op, s.mem[d], Has(Flags(s.mem), C)), s.mem[d] % 2 == 1;
    CarrySreg(s.mem[SREG], res == 0, res >= 128, (res >= 128) != out, out, out);
  }

  lemma ShiftMemIs(rom: Rom, m: Memory, op: ShiftOp, d: reg)
    ensures var res := Shifted(op, m[d], Has(Flags(m), C));
      AluMem(rom, Shift(op, d), m) == m[d := res][SREG := Pack(ShiftFlags(Flags(m), res, m[d] % 2 == 1))]
  {
    hide Pack, ShiftFlags, Unpack, Has, Shifted;
  }

  // ----- words -----

  /** The word in a register pair. */
  function PairAt(m: Memory, p: pair): (x: int) {
    m[p] as int + 256 * m[p + 1] as int
  }

  function SignedOf(x: int): (r: int) {
    if x >= 0x8000 then x - 0x1_0000 else x
  }

  /** The pair and the flags after adding delta: H is kept. */
  predicate WordDone(s: State, t: State, p: pair, delta: int) {
    var x, res := PairAt(s.mem, p), PairAt(t.mem, p);
    var exact := SignedOf(x) + delta;
    && res in {x + delta, x + delta - 0x1_0000, x + delta + 0x1_0000}
    && OnlyWrites(s, t, {p as int, p + 1, 0x5f})
    && ResultIs(s, t, res == 0, res >= 0x8000, !(-0x8000 <= exact < 0x8000), exact < 0)
    && CarryOf(t) == !(0 <= x + delta < 0x1_0000) && HalfOf(t) == HalfOf(s)
  }

  lemma WordResult(s: State, t: State, p: pair, delta: int)
    requires -64 < delta < 64 && t.pc == s.pc + 1 && !t.skip
    requires var x := WordAt(s.mem, p);
      t.mem == PutWord(s.mem, p, (x as int + delta) % 0x1_0000)[SREG := Pack(WideFlags(Flags(s.mem), x, delta))]
    ensures WordDone(s, t, p, delta)
  {
    hide Bit, Has, Pack, Unpack, Assign, ResultFlags;
    var x := WordAt(s.mem, p);
    var sum, exact := x as int + delta, SignedWord(x) + delta;
    CarrySreg(s.mem[SREG], sum % 0x1_0000 == 0, sum % 0x1_0000 >= 0x8000, !(-0x8000 <= exact < 0x8000), exact < 0,
              !(0 <= sum < 0x1_0000));
  }

  lemma WordMemIs(rom: Rom, m: Memory, p: pair, k: small)
    ensures var x := WordAt(m, p);
      && AluMem(rom, Adiw(p, k), m) == PutWord(m, p, (x as int + k) % 0x1_0000)[SREG := Pack(WideFlags(Flags(m), x, k))]
      && AluMem(rom, Sbiw(p, k), m)
         == PutWord(m, p, (x as int - k) % 0x1_0000)[SREG := Pack(WideFlags(Flags(m), x, 0 - k as int))]
  {
    hide Pack, WideFlags, Unpack, WordAt, PutWord;
  }

  /** ADIW. */
  lemma AdiwLaw(rom: Rom, s: State, p: pair, k: small)
    requires Runs(rom, s, Adiw(p, k))
    ensures Step(rom, s).Ok? && WordDone(s, Step(rom, s).value, p, k)
  {
    hide Fetch, Step, AluMem, Pack, WideFlags, WordDone, Unpack;
    AluRuns(rom, s, Adiw(p, k));
    WordMemIs(rom, s.mem, p, k);
    WordResult(s, Step(rom, s).value, p, k);
  }

  /** SBIW. */
  lemma SbiwLaw(rom: Rom, s: State, p: pair, k: small)
    requires Runs(rom, s, Sbiw(p, k))
    ensures Step(rom, s).Ok? && WordDone(s, Step(rom, s).value, p, 0 - k as int)
  {
    hide Fetch, Step, AluMem, Pack, WideFlags, WordDone, Unpack;
    AluRuns(rom, s, Sbiw(p, k));
    WordMemIs(rom, s.mem, p, k);
    WordResult(s, Step(rom, s).value, p, 0 - k as int);
  }

  // ----- multiplication -----

  lemma MulMemIs(rom: Rom, m: Memory, sd: bool, sr: bool, fractional: bool, d: reg, r: reg)
    ensures var p := Product(sd, sr, m[d], m[r]);
      var x := if fractional then 2 * (p as int) % 0x1_0000 else p;
      AluMem(rom, Mul(sd, sr, fractional, d, r), m)
      == PutWord(m, 0, x)[SREG := Pack(Assign(Assign(Flags(m), C, p >= 0x8000), Z, x == 0))]
  {
    hide Pack, Unpack, Assign, Product;
  }

  /** The product of two bytes, each read as signed or not. */
  function Exactly(sd: bool, sr: bool, a: byte, b: byte): (p: int) {
    (if sd then Signed(a) else a) * (if sr then Signed(b) else b)
  }

  /** A product grows with a factor that multiplies something not negative. */
  lemma Grows(x: int, y: int, z: int)
    requires x <= y && z >= 0
    ensures x * z <= y * z
  {
    assert y * z - x * z == (y - x) * z;
  }

  lemma PositiveBound(x: int, y: int)
    requires 0 <= x < 256 && 0 <= y < 256
    ensures 0 <= x * y <= 255 * 255 && (x < 128 || y < 128 ==> x * y <= 127 * 255)
  {
    Grows(x, 255, y);
    if x < 128 {
      Grows(x, 127, y);
    } else if y < 128 {
      Grows(y, 127, x);
    }
  }

  lemma MixedBound(x: int, y: int)
    requires -128 <= x < 0 <= y < 256
    ensures -128 * 255 <= x * y <= 0
  {
    Grows(-128, x, y);
    Grows(x, 0, y);
  }

  lemma NegativeBound(x: int, y: int)
    requires -128 <= x < 0 && -128 <= y < 0
    ensures 0 <= x * y <= 128 * 128
  {
    Grows(0 - x, 128, 0 - y);
    assert (0 - x) * (0 - y) == x * y;
  }

  lemma ProductBounds(x: int, y: int)
    requires -128 <= x < 256 && -128 <= y < 256
    ensures -0x8000 <= x * y < 0x1_0000
    ensures x < 128 || y < 128 ==> x * y < 0x8000
  {
    if x >= 0 && y >= 0 {
      PositiveBound(x, y);
    } else if x < 0 && y < 0 {
      NegativeBound(x, y);
    } else if x < 0 {
      MixedBound(x, y);
    } else {
      MixedBound(y, x);
    }
  }

  lemma ProductIs(sd: bool, sr: bool, a: byte, b: byte)
    ensures var p, e := Product(sd, sr, a, b), Exactly(sd, sr, a, b);
      && -0x8000 <= e < 0x1_0000 && (sd || sr ==> e < 0x8000) && p == if e < 0 then e + 0x1_0000 else e
  {
    ProductBounds(if sd then Signed(a) else a, if sr then Signed(b) else b);
  }

  /** MUL, MULS and MULSU leave the exact product in r1:r0, as an unsigned word or in two's complement; FMUL, FMULS and
      FMULSU leave twice that, without its highest bit.  C is bit 15 of the product. */
  lemma MulLaw(rom: Rom, s: State, sd: bool, sr: bool, fractional: bool, d: reg, r: reg)
    requires Runs(rom, s, Mul(sd, sr, fractional, d, r))
    ensures Step(rom, s).Ok?
    ensures var t, e := Step(rom, s).value, Exactly(sd, sr, s.mem[d], s.mem[r]);
      var p, res := if e < 0 then e + 0x1_0000 else e, PairAt(t.mem, 0);
      && 0 <= p < 0x1_0000 && OnlyWrites(s, t, {0, 1, 0x5f})
      && res == (if !fractional then p else if p >= 0x8000 then 2 * p - 0x1_0000 else 2 * p)
      && CarryOf(t) == (p >= 0x8000)
      && ResultIs(s, t, res == 0, NegativeOf(s), OverflowOf(s), SignOf(s)) && HalfOf(t) == HalfOf(s)
  {
    hide Fetch, Step, AluMem, Bit, Has, Pack, Unpack, Assign, Product, Exactly;
    AluRuns(rom, s, Mul(sd, sr, fractional, d, r));
    MulMemIs(rom, s.mem, sd, sr, fractional, d, r);
    ProductIs(sd, sr, s.mem[d], s.mem[r]);
    var p := Product(sd, sr, s.mem[d], s.mem[r]);
    var x := if fractional then 2 * (p as int) % 0x1_0000 else p;
    ProductSreg(s.mem[SREG], p >= 0x8000, x == 0);
  }
}
