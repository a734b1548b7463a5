/**
 With memory limited to 64 KiB, what lies above stays out of the machine.

 No run writes there.  Nor does a run depend on it, with one exception: popbyte
 does not truncate sp + 1, so a pop that starts at SP = 0xffff reads address
 0x10000.  `StepIsolatedIff` shows that this is the only leak.
 */
module Isolation {
  import opened Bytes
  import opened Isa
  import opened Cpu
  import opened Frame
  import opened DecodeTable
  import opened Words
  import opened Reads
  import opened Lockstep

  const HIGH := 0x1_0000

  predicate LowEq(m: Memory, n: Memory) {
    forall a | 0 <= a < HIGH :: m[a] == n[a]
  }

  /** Two states that differ at most in memory above 64 KiB. */
  predicate Alike(s: State, t: State) {
    t == s.(mem := t.mem) && LowEq(s.mem, t.mem)
  }

  predicate SameOutcome(x: Outcome<State>, y: Outcome<State>) {
    match x
    case Abort(why) => y == Abort(why)
    case Ok(s) => y.Ok? && Alike(s, y.value)
  }

  // ----- no writes above -----

  lemma TargetLow(s: State, p: Pointer, mode: Mode)
    requires s.max64k
    ensures Target(s, p, mode) < HIGH
  {
    hide PointerAt;
  }

  lemma AluConfined(i: Insn, a: int)
    requires AluMayWrite(i, a)
    ensures a < HIGH
  {
  }

  lemma Confined(i: Insn, s: State, a: int)
    requires s.max64k && MayWrite(i, s, a)
    ensures a < HIGH
  {
    hide Target, AluMayWrite;
    if i.LdSt? {
      TargetLow(s, i.ptr, i.mode);
    } else if AluMayWrite(i, a) {
      AluConfined(i, a);
    }
  }

  lemma StepConfined(rom: Rom, s: State, a: int)
    requires s.max64k && HIGH <= a < MEM_SIZE && Step(rom, s).Ok?
    ensures Step(rom, s).value.max64k && Step(rom, s).value.mem[a] == s.mem[a]
  {
    hide MayWrite, MemAfter, Fetch, Faults, PcAfter, SkipAfter, Wrap, Size;
    if !s.skip {
      var i := Fetch(rom, s.pc).value;
      if MayWrite(i, s, a) {
        Confined(i, s, a);
      }
      MemFrame(rom, i, s, a);
    }
  }

  /** No run changes a byte at or above 0x10000. */
  lemma {:induction false} RunConfined(rom: Rom, s: State, n: nat, a: int)
    requires s.max64k && HIGH <= a < MEM_SIZE && Run(rom, s, n).Ok?
    ensures Run(rom, s, n).value.max64k && Run(rom, s, n).value.mem[a] == s.mem[a]
  {
    hide Step;
    if n > 0 {
      RunConfined(rom, s, n - 1, a);
      StepConfined(rom, Run(rom, s, n - 1).value, a);
    }
  }

  // ----- no reads above, but for one -----

  /** Executing i pops a byte from address 0x10000. */
  predicate PopsHigh(i: Insn, s: State) {
    match i
    case Pop(_) => Sp(s.mem) == 0xffff
    case Ret(_) => Sp(s.mem) + PcBytes(s.pc22) > 0xffff
    case _ => false
  }

  predicate Leaks(rom: Rom, s: State) {
    !s.skip && Fetch(rom, s.pc).Ok? && PopsHigh(Fetch(rom, s.pc).value, s)
  }

  /** Only such a pop looks above 64 KiB. */
  lemma ReadsLow(i: Insn, s: State, a: int)
    requires s.max64k && MayRead(i, s, a) && !PopsHigh(i, s)
    ensures a < HIGH
  {
    hide Target, AluMayRead;
    if i.LdSt? {
      TargetLow(s, i.ptr, i.mode);
    } else if AluMayRead(i, a) {
      AluReadsLow(i, a);
    }
  }

  lemma AluReadsLow(i: Insn, a: int)
    requires AluMayRead(i, a)
    ensures a < HIGH
  {
  }

  lemma StepAlike(rom: Rom, s: State, t: State)
    requires s.max64k && Alike(s, t) && !Leaks(rom, s)
    ensures SameOutcome(Step(rom, s), Step(rom, t))
  {
    hide Step, Fetch, MayRead, PopsHigh, WritesAt, SteersAt, DepsAt;
    forall b | 0 <= b < MEM_SIZE && SteersAt(rom, s, b)
      ensures s.mem[b] == t.mem[b]
    {
      ReadsCoverAt(rom, s, b, b);
      ReadsLow(Fetch(rom, s.pc).value, s, b);
    }
    StepTwins(rom, s, t);
    if Step(rom, s).Ok? {
      forall a | 0 <= a < HIGH
        ensures Step(rom, s).value.mem[a] == Step(rom, t).value.mem[a]
      {
        forall b | 0 <= b < MEM_SIZE && WritesAt(rom, s, a) && DepsAt(rom, s, a, b)
          ensures s.mem[b] == t.mem[b]
        {
          ReadsCoverAt(rom, s, a, b);
          ReadsLow(Fetch(rom, s.pc).value, s, b);
        }
        StepCell(rom, s, t, a);
      }
    }
  }

  /** Two runs that agree below 64 KiB keep agreeing, as long as none of their steps pops across 0xffff. */
  lemma {:induction false} RunAlike(rom: Rom, s: State, t: State, n: nat)
    requires s.max64k && Alike(s, t)
    requires forall k: nat | k < n && Run(rom, s, k).Ok? :: !Leaks(rom, Run(rom, s, k).value)
    ensures SameOutcome(Run(rom, s, n), Run(rom, t, n))
  {
    hide Step, Leaks, LowEq;
    if n > 0 {
      RunAlike(rom, s, t, n - 1);
      if Run(rom, s, n - 1).Ok? {
        var u := Run(rom, s, n - 1).value;
        RunKeepsModel(rom, s, n - 1);
        StepAlike(rom, u, Run(rom, t, n - 1).value);
      }
    }
  }

  // ----- the exception is real -----

  /** The same state with the lowest bit of the byte at 0x10000 flipped. */
  function Flipped(s: State): (t: State) {
    var b := s.mem[HIGH];
    s.(mem := s.mem[HIGH := if b % 2 == 0 then b + 1 else b - 1])
  }

  predicate OneApart(a: int, b: int) {
    a - b == 1 || b - a == 1
  }

  lemma FlippedAlike(s: State)
    ensures Alike(s, Flipped(s))
  {
  }

  /** A byte popped from address 0x10000 shows the flip; any other does not. */
  lemma PopFlipped(m: Memory, n: Memory)
    requires LowEq(m, n) && OneApart(m[HIGH], n[HIGH])
    ensures LowEq(PopMem(m), PopMem(n)) && PopMem(m)[HIGH] == m[HIGH] && PopMem(n)[HIGH] == n[HIGH]
    ensures Sp(m) == Sp(n) && Sp(PopMem(m)) == (Sp(m) as int + 1) % 0x1_0000
    ensures if Sp(m) == 0xffff then OneApart(PopByte(m), PopByte(n)) else PopByte(m) == PopByte(n)
  {
  }

  lemma RetFlipped(m: Memory, n: Memory, pc22: bool)
    requires LowEq(m, n) && OneApart(m[HIGH], n[HIGH])
    requires Sp(m) + PcBytes(pc22) > 0xffff
    ensures PopPc(m, pc22) != PopPc(n, pc22)
  {
    hide PopMem, PopByte, LowEq, Sp;
    PopFlipped(m, n);
    PopFlipped(PopMem(m), PopMem(n));
    PopFlipped(PopMem(PopMem(m)), PopMem(PopMem(n)));
    if pc22 {
      Residue(PopByte(m), PopByte(PopMem(m)), PopByte(PopMem(PopMem(m))),
              PopByte(n), PopByte(PopMem(n)), PopByte(PopMem(PopMem(n))));
    }
  }

  /** Two 22-bit addresses that differ by one in exactly one byte differ. */
  lemma Residue(a1: byte, a2: byte, a3: byte, b1: byte, b2: byte, b3: byte)
    requires || (OneApart(a1, b1) && a2 == b2 && a3 == b3)
             || (OneApart(a2, b2) && a1 == b1 && a3 == b3)
             || (OneApart(a3, b3) && a1 == b1 && a2 == b2)
    ensures (0x1_0000 * (a1 as int) + 256 * (a2 as int) + a3) % 0x40_0000
         != (0x1_0000 * (b1 as int) + 256 * (b2 as int) + b3) % 0x40_0000
  {
    var a := 0x1_0000 * (a1 as int) + 256 * (a2 as int) + a3;
    var b := 0x1_0000 * (b1 as int) + 256 * (b2 as int) + b3;
    assert 0 < a - b < 0x40_0000 || 0 < b - a < 0x40_0000;
  }

  lemma LeakShows(rom: Rom, s: State)
    requires Leaks(rom, s)
    ensures !SameOutcome(Step(rom, s), Step(rom, Flipped(s)))
  {
    hide Fetch, Sp, PopMem, PopByte, PopPc, PopPcMem;
    var t := Flipped(s);
    FlippedAlike(s);
    var i := Fetch(rom, s.pc).value;
    if i.Ret? {
      RetFlipped(s.mem, t.mem, s.pc22);
      assert Exec(rom, i, s).pc != Exec(rom, i, t).pc;
    } else {
      PopFlipped(s.mem, t.mem);
      assert Exec(rom, i, s).mem[i.d] != Exec(rom, i, t).mem[i.d];
    }
  }

  /** The step does not depend on memory above 64 KiB. */
  ghost predicate StepIsolated(rom: Rom, s: State) {
    forall t | Alike(s, t) :: SameOutcome(Step(rom, s), Step(rom, t))
  }

  /** A step is independent of high memory exactly when it does not pop across 0xffff. */
  lemma StepIsolatedIff(rom: Rom, s: State)
    requires s.max64k
    ensures StepIsolated(rom, s) <==> !Leaks(rom, s)
  {
    hide Step, Alike, SameOutcome, Leaks, Flipped;
    if Leaks(rom, s) {
      LeakShows(rom, s);
      FlippedAlike(s);
    } else {
      forall t | Alike(s, t) ensures SameOutcome(Step(rom, s), Step(rom, t)) {
        StepAlike(rom, s, t);
      }
    }
  }

  /** POP r0 at SP = 0xffff is such a step. */
  lemma PopLeaks(rom: Rom, s: State)
    requires SameRows(rom.table) && s.max64k && !s.skip && s.pc < FLASH_SIZE
    requires rom.flash[s.pc] == POP_R0 && Sp(s.mem) == 0xffff
    ensures !StepIsolated(rom, s)
  {
    hide Step, Fetch, SameRows, StepIsolated;
    FetchPop(rom, s.pc);
    StepIsolatedIff(rom, s);
  }

  // ----- whole runs -----

  predicate SameAt(rom: Rom, s: State, t: State, k: nat) {
    SameOutcome(Run(rom, s, k), Run(rom, t, k))
  }

  /** No step of n, nor any shorter run, depends on memory above 64 KiB. */
  ghost predicate RunIsolated(rom: Rom, s: State, n: nat) {
    forall t, k: nat | Alike(s, t) && k <= n :: SameAt(rom, s, t, k)
  }

  predicate LeaksAt(rom: Rom, s: State, k: nat) {
    Run(rom, s, k).Ok? && Leaks(rom, Run(rom, s, k).value)
  }

  /** High memory is still as it was, so the flip is still there after any run that does not show it. */
  lemma FlipSurvives(rom: Rom, s: State, k: nat)
    requires s.max64k && Run(rom, s, k).Ok? && SameAt(rom, s, Flipped(s), k)
    ensures Run(rom, Flipped(s), k) == Ok(Flipped(Run(rom, s, k).value))
  {
    hide Run;
    var t := Flipped(s);
    var u, v := Run(rom, s, k).value, Run(rom, t, k).value;
    forall a | HIGH <= a < MEM_SIZE
      ensures u.mem[a] == s.mem[a] && v.mem[a] == t.mem[a]
    {
      RunConfined(rom, s, k, a);
      RunConfined(rom, t, k, a);
    }
    assert v.mem == Flipped(u).mem;
  }

  lemma LeakBreaks(rom: Rom, s: State, n: nat, k: nat)
    requires s.max64k && k < n && LeaksAt(rom, s, k)
    ensures !RunIsolated(rom, s, n)
  {
    hide Step, Leaks, LowEq, Flipped;
    var t := Flipped(s);
    FlippedAlike(s);
    if SameAt(rom, s, t, k) {
      FlipSurvives(rom, s, k);
      LeakShows(rom, Run(rom, s, k).value);
      assert !SameAt(rom, s, t, k + 1);
    }
  }

  /** A run is independent of high memory, at every step of it, exactly when none of its steps pops across 0xffff. */
  lemma RunIsolatedIff(rom: Rom, s: State, n: nat)
    requires s.max64k
    ensures RunIsolated(rom, s, n) <==> forall k: nat | k < n :: !LeaksAt(rom, s, k)
  {
    hide Step, Leaks, LowEq, Run;
    if k: nat :| k < n && LeaksAt(rom, s, k) {
      LeakBreaks(rom, s, n, k);
    } else {
      forall t, k: nat | Alike(s, t) && k <= n
        ensures SameAt(rom, s, t, k)
      {
        assert forall j: nat | j < k && Run(rom, s, j).Ok? :: !LeaksAt(rom, s, j);
        RunAlike(rom, s, t, k);
      }
    }
  }
}
