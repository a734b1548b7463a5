/**
 When a reverse step recovers the past.

 init() resets the registers of the emulator but not data memory, so a replay
 starts from the memory the forward run left behind.  Two short programs show
 what can go wrong: `Drift` replays to a state that never was, and `Crash` ends
 the emulator.  `ReverseExactIff` says when the past does come back.
 */
module ReverseDrift {
  import opened Bytes
  import opened Isa
  import opened Alu
  import opened Cpu
  import opened Frame
  import opened Reads
  import opened DecodeTable
  import opened Words
  import opened Lockstep
  import opened Debugger

  // ----- a program that drifts -----

  lemma RunOne(rom: Rom, s: State)
    ensures Run(rom, s, 1) == Step(rom, s)
  {
    hide Step;
    assert Run(rom, s, 0) == Ok(s);
  }

  lemma RunTwo(rom: Rom, s: State)
    ensures Step(rom, s).Ok? ==> Run(rom, s, 2) == Step(rom, Step(rom, s).value)
  {
    hide Step;
    RunOne(rom, s);
  }

  /** INC r0 adds one to r0 and moves on. */
  lemma IncStep(rom: Rom, s: State)
    requires !s.skip && Fetch(rom, s.pc) == Ok(Inc(0)) && s.pc < FLASH_SIZE
    ensures Step(rom, s).Ok?
    ensures var t := Step(rom, s).value; t.pc == s.pc + 1 && !t.skip && t.mem[0] == (s.mem[0] as int + 1) % 256
  {
    hide Fetch, StepFlags, Pack, Unpack;
    OnlyAluShape(rom, Inc(0), s);
    WrapSmall(s.pc + 1);
  }

  /** For every start memory, reversing from count 2 leaves r0 two higher than it was at count 1. */
  lemma Drift(rom: Rom, m: Memory)
    requires SameRows(rom.table) && rom.flash[0] == INC_R0 && rom.flash[1] == INC_R0
    ensures Run(rom, Reset(m), 1).Ok? && Run(rom, Reset(m), 2).Ok?
    ensures var replayed := Run(rom, Reset(Run(rom, Reset(m), 2).value.mem), 1);
      replayed.Ok? && replayed.value.mem[0] == (Run(rom, Reset(m), 1).value.mem[0] as int + 2) % 256
    ensures Run(rom, Reset(Run(rom, Reset(m), 2).value.mem), 1) != Run(rom, Reset(m), 1)
  {
    hide Step, Fetch;
    FetchInc(rom, 0);
    FetchInc(rom, 1);
    RunOne(rom, Reset(m));
    IncStep(rom, Reset(m));
    var s1 := Run(rom, Reset(m), 1).value;
    IncStep(rom, s1);
    var s2 := Run(rom, Reset(m), 2).value;
    RunOne(rom, Reset(s2.mem));
    IncStep(rom, Reset(s2.mem));
  }

  // ----- a program that crashes -----

  /** SBRC r0,0; SLEEP; INC r0; NOP. */
  ghost predicate CrashProgram(rom: Rom) {
    && SameRows(rom.table)
    && rom.flash[0] == SBRC_R0_0 && rom.flash[1] == SLEEP && rom.flash[2] == INC_R0 && rom.flash[3] == NOP
  }

  lemma LowestBit(x: byte)
    ensures Has(Unpack(x), BitAt(0)) == (x % 2 == 1)
  {
  }

  /** With bit 0 of r0 clear the SLEEP is skipped; with it set it comes next. */
  lemma SbrcStep(rom: Rom, m: Memory)
    requires CrashProgram(rom)
    ensures Step(rom, Reset(m)) == Ok(Reset(m).(pc := if m[0] % 2 == 0 then 2 else 1, insns := 1))
  {
    hide Fetch, SameRows, MemAfter, Unpack, Has, BitAt, Wrap;
    QuietMem(rom, SkipBit(0, 0, false), Reset(m), 0);
    FetchSbrc(rom, 0);
    FetchSleep(rom, 1);
    LowestBit(m[0]);
    WrapSmall(1);
    WrapSmall(2);
  }

  lemma NopStep(rom: Rom, s: State)
    requires !s.skip && Fetch(rom, s.pc) == Ok(Nop)
    ensures Step(rom, s).Ok? && Step(rom, s).value.mem == s.mem
  {
    hide Fetch, Wrap;
    OnlyAluShape(rom, Nop, s);
  }

  lemma SleepStep(rom: Rom, s: State)
    requires !s.skip && Fetch(rom, s.pc) == Ok(Unimplemented)
    ensures Step(rom, s) == Abort(NotImplemented)
  {
    hide Fetch;
  }

  /** Forward, with r0 even at the start, three instructions run; the replay of two on the memory they leave aborts. */
  lemma Crash(rom: Rom, m: Memory)
    requires CrashProgram(rom) && m[0] % 2 == 0
    ensures Run(rom, Reset(m), 3).Ok?
    ensures Run(rom, Reset(Run(rom, Reset(m), 3).value.mem), 2) == Abort(NotImplemented)
  {
    hide Step, Fetch, SameRows;
    SbrcStep(rom, Reset(m).mem);
    RunTwo(rom, Reset(m));
    FetchInc(rom, 2);
    var s1 := Step(rom, Reset(m)).value;
    IncStep(rom, s1);
    var s2 := Step(rom, s1).value;
    FetchNop(rom, 3);
    NopStep(rom, s2);
    assert Run(rom, Reset(m), 3) == Step(rom, s2);
    var m3 := Run(rom, Reset(m), 3).value.mem;
    SbrcStep(rom, m3);
    RunTwo(rom, Reset(m3));
    FetchSleep(rom, 1);
    SleepStep(rom, Step(rom, Reset(m3)).value);
  }

  /** So a reverse step from count 3 of this program ends the emulator, which had run without fault until then. */
  lemma ReverseCrashes(setup: Setup, x: Session)
    requires AboutToReverse(setup, x) && Faithful(setup, x) && x.cpu.insns == 3
    requires CrashProgram(setup.rom) && x.start[0] % 2 == 0
    ensures Loop(setup, x, 3).Halted? && Loop(setup, x, 3).halt == Fault(NotImplemented)
  {
    hide Run, Loop, CrashProgram;
    Crash(setup.rom, x.start);
    ReverseStep(setup, x);
  }

  // ----- when the past comes back -----

  /** No step of the replayed stretch looks at a byte that has changed since the last reset, unless it has written
      it first. */
  predicate Undisturbed(setup: Setup, x: Session)
    requires x.cpu.insns > 0
  {
    NoStaleRead(setup.rom, Reset(x.start), Reset(x.cpu.mem), x.cpu.insns - 1)
  }

  /** Every byte that has changed since the last reset is written in the replayed stretch. */
  predicate Repaired(setup: Setup, x: Session)
    requires x.cpu.insns > 0
  {
    AllWritten(setup.rom, Reset(x.start), Reset(x.cpu.mem), x.cpu.insns - 1)
  }

  /** For every program and every count: when no changed byte is looked at before it is written, the reverse step
      comes back, and it recovers the state of one instruction earlier exactly when every changed byte is written. */
  lemma ReverseExactIff(setup: Setup, x: Session)
    requires AboutToReverse(setup, x) && Faithful(setup, x) && Undisturbed(setup, x)
    ensures var n := x.cpu.insns;
      var past := Run(setup.rom, Reset(x.start), n - 1);
      && past.Ok? && Loop(setup, x, n).Again?
      && (Loop(setup, x, n).x.cpu == past.value <==> Repaired(setup, x))
  {
    hide Step, Loop, NoStaleRead, AllWritten, Prompted;
    var n := x.cpu.insns;
    ConvergeIff(setup.rom, Reset(x.start), Reset(x.cpu.mem), n - 1);
    ReverseStep(setup, x);
  }

  /** More generally, let what has changed taint what is made from it.  When no tainted byte decides an address, a
      branch, a skip or a return in the replayed stretch, the reverse step comes back, and it recovers the state of
      one instruction earlier when no taint is left. */
  lemma ReverseRecovers(setup: Setup, x: Session)
    requires AboutToReverse(setup, x) && Faithful(setup, x)
    requires Steadfast(setup.rom, Reset(x.start), Reset(x.cpu.mem), x.cpu.insns - 1)
    ensures var n := x.cpu.insns;
      var past := Run(setup.rom, Reset(x.start), n - 1);
      && past.Ok? && Loop(setup, x, n).Again?
      && (Clean(setup.rom, Reset(x.start), Reset(x.cpu.mem), n - 1) ==> Loop(setup, x, n).x.cpu == past.value)
  {
    hide Step, Loop, Steadfast, Clean, Prompted;
    var n := x.cpu.insns;
    var s, t := Reset(x.start), Reset(x.cpu.mem);
    ReverseStep(setup, x);
    RunTwins(setup.rom, s, t, n - 1);
    if Clean(setup.rom, s, t, n - 1) {
      CleanMeets(setup.rom, s, t, n - 1);
    }
  }

  // ----- a start-up that is safe to replay -----

  /** EOR r1,r1; OUT SREG,r1. */
  ghost predicate Startup(rom: Rom) {
    SameRows(rom.table) && rom.flash[0] == EOR_R1_R1 && rom.flash[1] == OUT_SREG_R1
  }

  lemma EorStep(rom: Rom, m: Memory)
    requires Startup(rom)
    ensures Step(rom, Reset(m)).Ok?
    ensures var t := Step(rom, Reset(m)).value; t.pc == 1 && !t.skip && Fetch(rom, 1) == Ok(Out(1, SREG - IO_BASE))
  {
    hide Fetch, AluMem, SameRows, Wrap;
    FetchEor(rom, 0);
    FetchOut(rom, 1);
    OnlyAluShape(rom, Logic(XorOp, 1, 1), Reset(m));
    WrapSmall(1);
  }

  /** Nothing steers these two steps, and they clean r1 and SREG. */
  lemma StartupSteps(rom: Rom, m: Memory)
    requires Startup(rom)
    ensures Run(rom, Reset(m), 1).Ok?
    ensures var s, u := Reset(m), Run(rom, Reset(m), 1).value;
      && (forall b :: !SteersAt(rom, s, b) && !SteersAt(rom, u, b))
      && (forall a :: WritesAt(rom, s, a) <==> a == 1 || a == SREG) && (forall a :: WritesAt(rom, u, a) <==> a == SREG)
      && (forall b :: !DepsAt(rom, s, 1, b)) && (forall b :: DepsAt(rom, u, SREG, b) <==> b == 1)
  {
    hide Fetch, Step, SameRows;
    FetchEor(rom, 0);
    EorStep(rom, m);
    RunOne(rom, Reset(m));
  }

  lemma StartupClean(rom: Rom, m: Memory, m': Memory, a: int)
    requires Startup(rom) && 0 <= a < MEM_SIZE && (a == 1 || a == SREG || m[a] == m'[a])
    ensures !Tainted(rom, Reset(m), Reset(m'), 2, a)
  {
    hide WritesAt, DepsAt, Step, Startup;
    var s, t := Reset(m), Reset(m');
    StartupSteps(rom, m);
    assert Run(rom, s, 0) == Ok(s);
    assert !Tainted(rom, s, t, 1, 1);
    if a != SREG {
      assert Tainted(rom, s, t, 1, a) ==> a != 1 && Tainted(rom, s, t, 0, a);
    }
  }

  /** A reverse step from count 3 of such a program recovers the past when only r1 and SREG have changed, although
      its first instruction merges flags into the changed SREG. */
  lemma StartupRecovers(setup: Setup, x: Session)
    requires AboutToReverse(setup, x) && Faithful(setup, x) && Startup(setup.rom) && x.cpu.insns == 3
    requires forall a | 0 <= a < MEM_SIZE && a != 1 && a != SREG :: x.start[a] == x.cpu.mem[a]
    ensures var past, r := Run(setup.rom, Reset(x.start), 2), Loop(setup, x, 3);
      past.Ok? && r.Again? && r.x.cpu == past.value
  {
    hide Step, Loop, Startup, SteersAt, Tainted, Prompted;
    var s, t := Reset(x.start), Reset(x.cpu.mem);
    StartupSteps(setup.rom, x.start);
    assert Run(setup.rom, s, 0) == Ok(s);
    forall k: nat | k < 2
      ensures SteeredClean(setup.rom, s, t, k)
    {
    }
    forall a | 0 <= a < MEM_SIZE
      ensures !Tainted(setup.rom, s, t, 2, a)
    {
      StartupClean(setup.rom, x.start, x.cpu.mem, a);
    }
    ReverseRecovers(setup, x);
  }

  lemma {:induction false} NotWritten(rom: Rom, s: State, n: nat, a: int)
    requires 0 <= a < MEM_SIZE && Run(rom, s, n).Ok? && !Written(rom, s, n, a)
    ensures Run(rom, s, n).value.mem[a] == s.mem[a]
  {
    hide Step, WritesAt;
    if n > 0 {
      NotWritten(rom, s, n - 1, a);
      StepSpares(rom, Run(rom, s, n - 1).value, a);
    }
  }

  lemma StepSpares(rom: Rom, s: State, a: int)
    requires 0 <= a < MEM_SIZE && !WritesAt(rom, s, a) && Step(rom, s).Ok?
    ensures Step(rom, s).value.mem[a] == s.mem[a]
  {
    hide Fetch, Faults, MemAfter, PcAfter, SkipAfter, MayWrite, Wrap, Size;
    if !s.skip {
      MemFrame(rom, Fetch(rom, s.pc).value, s, a);
    }
  }

  /** Whatever the replay looks at: a changed byte that neither run to that point writes is still changed. */
  lemma ReverseInexact(setup: Setup, x: Session, a: int)
    requires AboutToReverse(setup, x) && Faithful(setup, x) && 0 <= a < MEM_SIZE && x.cpu.mem[a] != x.start[a]
    requires !Written(setup.rom, Reset(x.start), x.cpu.insns - 1, a)
    requires !Written(setup.rom, Reset(x.cpu.mem), x.cpu.insns - 1, a)
    ensures var n := x.cpu.insns;
      var past, r := Run(setup.rom, Reset(x.start), n - 1), Loop(setup, x, n);
      past.Ok? && (r.Again? ==> r.x.cpu != past.value)
  {
    hide Step, Loop, Written, Prompted;
    var n := x.cpu.insns - 1;
    ReverseStep(setup, x);
    NotWritten(setup.rom, Reset(x.start), n, a);
    if Run(setup.rom, Reset(x.cpu.mem), n).Ok? {
      NotWritten(setup.rom, Reset(x.cpu.mem), n, a);
    }
  }
}
