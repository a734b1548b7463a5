/**
 What LD, ST, LDD and STD do through X, Y and Z in the three memory models, with
 the pointer's registers and RAMP bytes at their literal addresses.

 `StoreReached` sets the displacement mode against the stepping one: a byte
 stored q places past the pointer is the one that q + 1 post-increment loads
 end on.
 */
module IndirectLaws {
  import opened Bytes
  import opened Isa
  import opened Cpu
  import opened Laws
  import opened DataLaws
  import opened Pointers

  /** The low register of a pointer: X is r27:r26, Y is r29:r28 and Z is r31:r30. */
  function LowReg(p: Pointer): (r: nat)
    ensures 26 <= r <= 30
  {
    match p
    case PtrX => 26
    case PtrY => 28
    case PtrZ => 30
  }

  /** RAMPX, RAMPY and RAMPZ. */
  function ExtCell(p: Pointer): (r: nat)
    ensures 0x59 <= r <= 0x5b
  {
    match p
    case PtrX => 0x59
    case PtrY => 0x5a
    case PtrZ => 0x5b
  }

  /** The number the pointer holds: two bytes, or three where memory goes beyond 64 KiB. */
  function Base(s: State, p: Pointer): (a: nat)
    ensures a < 0x100_0000
  {
    var r := LowReg(p);
    s.mem[r] as int + 256 * s.mem[r + 1] as int + if s.max64k then 0 else 0x1_0000 * s.mem[ExtCell(p)] as int
  }

  /** The cell at x: addresses wrap at 256 bytes, 64 KiB or 16 MiB. */
  function Place(s: State, x: int): (a: nat)
    ensures a < 0x100_0000
  {
    x % if s.max256b then 0x100 else if s.max64k then 0x1_0000 else 0x100_0000
  }

  predicate HeldBy(p: Pointer, a: int) {
    a == LowReg(p) || a == LowReg(p) + 1 || a == ExtCell(p)
  }

  /** The cells an update of the pointer writes: one byte, two, or three. */
  function Updated(s: State, p: Pointer): (cells: set<int>) {
    if s.max256b then {LowReg(p) as int}
    else if s.max64k then {LowReg(p) as int, LowReg(p) + 1}
    else {LowReg(p) as int, LowReg(p) + 1, ExtCell(p) as int}
  }

  lemma SameNames(s: State, p: Pointer)
    ensures LowReg(p) == PairReg(p) && ExtCell(p) == RampReg(p) && Base(s, p) == PointerAt(s.mem, p, s.max64k)
  {
  }

  lemma SamePlace(s: State, x: nat)
    ensures Place(s, x) == Clip(x, s.max64k, s.max256b)
  {
  }

  // ----- where each mode goes -----

  /** The address each mode uses: q places on, where the pointer stands, or one place back. */
  function Reach(mode: Mode): (k: int) {
    match mode
    case Disp(q) => q
    case PostInc => 0
    case PreDec => -1
  }

  lemma TargetPlace(s: State, p: Pointer, mode: Mode)
    ensures Target(s, p, mode) == Place(s, Base(s, p) + Reach(mode))
  {
    hide Base, PointerAt;
    SameNames(s, p);
    PlaceFirst(s, Base(s, p) + Reach(mode));
    SamePlace(s, (Base(s, p) + Reach(mode)) % MEM_SIZE);
    SamePlace(s, Base(s, p));
  }

  lemma PlaceFirst(s: State, x: int)
    ensures Place(s, x % MEM_SIZE) == Place(s, x)
  {
    ModMod(x, 0x100, 0x1_0000);
    ModMod(x, 0x1_0000, 0x100);
    ModMod(x, 0x100_0000, 1);
  }

  // ----- without a change to the pointer -----

  /** STD P+q; ST P is the case q = 0. */
  lemma StdLaw(rom: Rom, s: State, p: Pointer, q: small, d: reg)
    requires Runs(rom, s, LdSt(p, Disp(q), d, true))
    ensures Step(rom, s).Ok?
    ensures var t, a := Step(rom, s).value, Place(s, Base(s, p) + q);
      t.mem[a] == s.mem[d] && OnlyWrites(s, t, {a as int})
  {
    hide Fetch, Step, Target, Place, Base, AluMem;
    Falls(rom, s, LdSt(p, Disp(q), d, true));
    TargetPlace(s, p, Disp(q));
  }

  /** LDD P+q; LD P is the case q = 0. */
  lemma LddLaw(rom: Rom, s: State, p: Pointer, q: small, d: reg)
    requires Runs(rom, s, LdSt(p, Disp(q), d, false))
    ensures Step(rom, s).Ok?
    ensures var t, a := Step(rom, s).value, Place(s, Base(s, p) + q);
      t.mem[d] == s.mem[a] && OnlyWrites(s, t, {d as int})
  {
    hide Fetch, Step, Target, Place, Base, AluMem;
    Falls(rom, s, LdSt(p, Disp(q), d, false));
    TargetPlace(s, p, Disp(q));
  }

  // ----- with a change to the pointer -----

  /** LD and ST with post-increment or pre-decrement refuse a register of the pointer itself. */
  lemma OverlapLaw(rom: Rom, s: State, p: Pointer, mode: Mode, d: reg, store: bool)
    requires Runs(rom, s, LdSt(p, mode, d, store)) && !mode.Disp? && (d == LowReg(p) || d == LowReg(p) + 1)
    ensures Step(rom, s) == Abort(IllegalOperands)
  {
    hide Fetch;
    SameNames(s, p);
  }

  lemma PutPlace(s: State, t: State, m: Memory, p: Pointer, a: nat)
    requires a <= MEM_SIZE && t.mem == PutPointer(m, p, a, s.max64k, s.max256b) && SameModel(s, t)
    ensures Place(t, Base(t, p)) == Place(s, a)
    ensures forall x | 0 <= x < MEM_SIZE && x !in Updated(s, p) :: t.mem[x] == m[x]
  {
    hide PutPointer, PointerAt, Place, Base;
    SameNames(t, p);
    PutPointerAt(s, m, p, a);
    SamePlace(s, a);
    SamePlace(t, Base(t, p));
    forall x | 0 <= x < MEM_SIZE && x !in Updated(s, p) ensures t.mem[x] == m[x] {
      if HeldBy(p, x) {
        assert x == PairReg(p) + 1 || x == RampReg(p);
      }
    }
  }

  lemma StepsPlace(s: State, x: nat)
    ensures Place(s, Place(s, x) + 1) == Place(s, x + 1)
  {
    NextMod(x, if s.max256b then 0x100 else if s.max64k then 0x1_0000 else 0x100_0000);
  }

  lemma PlaceTwice(s: State, x: int)
    ensures Place(s, Place(s, x)) == Place(s, x)
  {
  }

  /** ST P+ and ST -P: the byte goes where the pointer stands before the one and after the other, unless the
      pointer's own bytes are there. */
  lemma StoreLaw(rom: Rom, s: State, p: Pointer, mode: Mode, d: reg)
    requires Runs(rom, s, LdSt(p, mode, d, true)) && !mode.Disp? && d != LowReg(p) && d != LowReg(p) + 1
    ensures Step(rom, s).Ok?
    ensures var t, a := Step(rom, s).value, Place(s, Base(s, p) + if mode.PostInc? then 0 else -1);
      && (a !in Updated(s, p) ==> t.mem[a] == s.mem[d])
      && Place(t, Base(t, p)) == Place(s, Base(s, p) + if mode.PostInc? then 1 else -1)
      && OnlyWrites(s, t, {a as int} + Updated(s, p))
  {
    hide Fetch, Step, Target, Place, Base, AluMem, PutPointer, Updated;
    SameNames(s, p);
    Falls(rom, s, LdSt(p, mode, d, true));
    TargetPlace(s, p, mode);
    StepKeepsModel(rom, s);
    var a := Target(s, p, mode);
    PutPlace(s, Step(rom, s).value, s.mem[a := s.mem[d]], p, if mode.PostInc? then a + 1 else a);
    StepsPlace(s, Base(s, p));
    PlaceTwice(s, Base(s, p) - 1);
  }

  /** LD P+ and LD -P. */
  lemma LoadLaw(rom: Rom, s: State, p: Pointer, mode: Mode, d: reg)
    requires Runs(rom, s, LdSt(p, mode, d, false)) && !mode.Disp? && d != LowReg(p) && d != LowReg(p) + 1
    ensures Step(rom, s).Ok?
    ensures var t, a := Step(rom, s).value, Place(s, Base(s, p) + if mode.PostInc? then 0 else -1);
      && t.mem[d] == s.mem[a]
      && Place(t, Base(t, p)) == Place(s, Base(s, p) + if mode.PostInc? then 1 else -1)
      && OnlyWrites(s, t, {d as int} + Updated(s, p))
  {
    hide Fetch, Step, Target, Place, Base, AluMem, PutPointer;
    SameNames(s, p);
    Falls(rom, s, LdSt(p, mode, d, false));
    TargetPlace(s, p, mode);
    StepKeepsModel(rom, s);
    var a := Target(s, p, mode);
    PutPlace(s, Step(rom, s).value, s.mem[d := s.mem[a]], p, if mode.PostInc? then a + 1 else a);
    StepsPlace(s, Base(s, p));
    PlaceTwice(s, Base(s, p) - 1);
  }

  // ----- a displaced store, found by stepping -----

  /** From s, a store of register d at p + q and then q + 1 loads through p with post-increment into the registers
      ds. */
  predicate StoresThenLoads(rom: Rom, s: State, p: Pointer, q: small, d: reg, ds: seq<reg>) {
    && |ds| == q + 1
    && Runs(rom, s, LdSt(p, Disp(q), d, true))
    && forall k: nat | k <= q ::
         Run(rom, s, k + 1).Ok? ==> Runs(rom, Run(rom, s, k + 1).value, LdSt(p, PostInc, ds[k], false))
  }

  /** The cell stored to is none of the pointer's and none of the registers loaded, which are not the pointer's
      either. */
  predicate Clear(s: State, p: Pointer, q: small, ds: seq<reg>) {
    var a := Place(s, Base(s, p) + q);
    !HeldBy(p, a) && forall k: nat | k < |ds| :: ds[k] != a && ds[k] != LowReg(p) && ds[k] != LowReg(p) + 1
  }

  lemma NotUpdated(s: State, p: Pointer, a: int)
    requires !HeldBy(p, a)
    ensures a !in Updated(s, p)
  {
  }

  /** After the store and k loads: the pointer stands k places on, and the byte is where it was stored. */
  lemma {:induction false} AfterLoads(rom: Rom, s: State, p: Pointer, q: small, d: reg, ds: seq<reg>, k: nat)
    requires StoresThenLoads(rom, s, p, q, d, ds) && Clear(s, p, q, ds) && k <= q + 1
    ensures Run(rom, s, k + 1).Ok?
    ensures var t := Run(rom, s, k + 1).value;
      && SameModel(s, t) && t.mem[Place(s, Base(s, p) + q)] == s.mem[d]
      && Place(t, Base(t, p)) == Place(s, Base(s, p) + k)
    ensures k > 0 ==>
      var u := Run(rom, s, k).value; Run(rom, s, k + 1).value.mem[ds[k - 1]] == u.mem[Place(u, Base(u, p))]
  {
    hide Step, Place, Base, Updated, Fetch;
    if k == 0 {
      StdLaw(rom, s, p, q, d);
      OneStep(rom, s);
      StepKeepsModel(rom, s);
      BaseKept(rom, s, Step(rom, s).value, p, Place(s, Base(s, p) + q));
    } else {
      AfterLoads(rom, s, p, q, d, ds, k - 1);
      var u := Run(rom, s, k).value;
      LoadLaw(rom, u, p, PostInc, ds[k - 1]);
      StepKeepsModel(rom, u);
      NotUpdated(u, p, Place(s, Base(s, p) + q));
      OnFromPlace(s, u, p, Base(s, p) + (k - 1));
    }
  }

  lemma OneStep(rom: Rom, s: State)
    ensures Run(rom, s, 1) == Step(rom, s)
  {
    hide Step;
    assert Run(rom, s, 0) == Ok(s);
  }

  lemma BaseKept(rom: Rom, s: State, t: State, p: Pointer, a: nat)
    requires SameModel(s, t) && !HeldBy(p, a) && OnlyWrites(s, t, {a as int})
    ensures Place(t, Base(t, p)) == Place(s, Base(s, p))
  {
    assert HeldBy(p, LowReg(p)) && HeldBy(p, LowReg(p) + 1) && HeldBy(p, ExtCell(p));
  }

  lemma OnFromPlace(s: State, u: State, p: Pointer, x: nat)
    requires SameModel(s, u) && Place(u, Base(u, p)) == Place(s, x)
    ensures Place(u, Base(u, p) + 1) == Place(s, x + 1)
  {
    hide Base;
    StepsPlace(u, Base(u, p));
    StepsPlace(s, x);
  }

  /** STD P+q and then q + 1 loads through P+: the last load gives the byte stored, also where the addresses wrap. */
  lemma StoreReached(rom: Rom, s: State, p: Pointer, q: small, d: reg, ds: seq<reg>)
    requires StoresThenLoads(rom, s, p, q, d, ds) && Clear(s, p, q, ds)
    ensures Run(rom, s, q + 2).Ok? && Run(rom, s, q + 2).value.mem[ds[q]] == s.mem[d]
  {
    hide Step, Place, Base, Run, StoresThenLoads, Clear;
    DsLength(rom, s, p, q, d, ds);
    AfterLoads(rom, s, p, q, d, ds, q);
    AfterLoads(rom, s, p, q, d, ds, q + 1);
  }

  lemma DsLength(rom: Rom, s: State, p: Pointer, q: small, d: reg, ds: seq<reg>)
    requires StoresThenLoads(rom, s, p, q, d, ds)
    ensures |ds| == q + 1
  {
    hide Run, Runs;
  }
}
