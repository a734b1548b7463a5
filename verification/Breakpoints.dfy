/**
 What the debugger's commands come to in the emulate loop: where the machine
 stops next after a continue or a step, given the breakpoints set and removed at
 the prompt.

 The results speak of the loop, of the run of the program, and of which
 addresses are armed; how the loop decides to stop is not part of them.
 */
module Breakpoints {
  import opened Cpu
  import opened Debugger
  import opened Steps
  import opened DecodeTable
  import opened ControlLaws

  /** The loop is about to read commands: after a step, at a breakpoint, or at the end of a replay. */
  predicate AtPrompt(setup: Setup, x: Session) {
    && setup.attached && !x.cpu.skip
    && if x.replay then x.cpu.insns >= x.lim else x.stepone || x.cpu.pc in x.breaks
  }

  /** A command that leaves the machine where it is: reading, setting or removing a breakpoint, or stepping back from
      count zero. */
  predicate Stays(c: Command, insns: nat) {
    c.Inspect? || c.AddBreak? || c.RemoveBreak? || (c.BackStep? && insns == 0)
  }

  /** Whether a breakpoint is set at a after the given commands: the last one about a decides. */
  predicate Armed(a: u32, before: bool, cmds: seq<Command>)
    decreases |cmds|
  {
    if cmds == [] then before
    else
      var c := cmds[0];
      Armed(a, if c == AddBreak(a) then true else if c == RemoveBreak(a) then false else before, cmds[1..])
  }

  /** At the prompt of x the debugger sends cmds, none of which resumes execution, then c, and has rest left to send. */
  predicate Sends(setup: Setup, x: Session, cmds: seq<Command>, c: Command, rest: seq<Command>) {
    && AtPrompt(setup, x) && x.script == cmds + [c] + rest
    && forall k | 0 <= k < |cmds| :: Stays(cmds[k], x.cpu.insns)
  }

  /** The log after n more commands were read at the present count. */
  function LogAfter(x: Session, n: nat): (log: seq<nat>) {
    x.log + seq(n, _ => x.cpu.insns)
  }

  /** The prompt of x has been served up to and including the command after cmds, and nothing has been read since. */
  predicate Served(x: Session, y: Session, cmds: seq<Command>, rest: seq<Command>) {
    && y.script == rest && y.log == LogAfter(x, |cmds| + 1) && !y.replay
    && forall a: u32 :: a in y.breaks <==> Armed(a, a in x.breaks, cmds)
  }

  /** The program stands at an armed address after k instructions, none of which reached the limit. */
  predicate Hits(setup: Setup, x: Session, cmds: seq<Command>, k: nat) {
    && k > 0 && Run(setup.rom, x.cpu, k).Ok? && (setup.limit == 0 || x.cpu.insns + k < setup.limit)
    && var pc := Run(setup.rom, x.cpu, k).value.pc; Armed(pc, pc in x.breaks, cmds)
  }

  // ----- the prompt -----

  lemma LogNext(x: Session, y: Session, n: nat)
    requires y.log == x.log + [x.cpu.insns] && y.cpu.insns == x.cpu.insns
    ensures LogAfter(y, n) == LogAfter(x, n + 1)
  {
  }

  lemma {:induction false} InteractServes(x: Session, cmds: seq<Command>, c: Command, rest: seq<Command>)
    requires x.script == cmds + [c] + rest && (c == Continue || c == StepOne) && !x.replay && !x.stepone
    requires forall k | 0 <= k < |cmds| :: Stays(cmds[k], x.cpu.insns)
    ensures var r := Interact(x);
      && r.Again? && Served(x, r.x, cmds, rest) && r.x.cpu == x.cpu && r.x.stepone == (c == StepOne)
    decreases |cmds|
  {
    var h := x.script[0];
    var y := x.(script := x.script[1..], log := x.log + [x.cpu.insns]);
    if cmds == [] {
      assert h == c && x.script[1..] == rest;
    } else {
      assert h == cmds[0];
      var z := Obeyed(h, y);
      assert z.script == cmds[1..] + [c] + rest;
      InteractServes(z, cmds[1..], c, rest);
      LogNext(x, z, |cmds|);
    }
  }

  /** The iteration that serves the prompt also runs one instruction. */
  lemma PromptStep(setup: Setup, x: Session, cmds: seq<Command>, c: Command, rest: seq<Command>)
    requires Sends(setup, x, cmds, c, rest) && (c == Continue || c == StepOne)
    ensures var r := LoopStep(setup, x);
      && Served(x, r.x, cmds, rest) && r.x.stepone == (c == StepOne)
      && (r.Again? <==> Step(setup.rom, x.cpu).Ok? && (setup.limit == 0 || x.cpu.insns + 1 < setup.limit))
      && (r.Again? ==> r.x.cpu == Step(setup.rom, x.cpu).value)
  {
    hide Step, Traced, Interact, Armed, Stays, LogAfter;
    var y := EndReplay(x).(stepone := false);
    InteractServes(y, cmds, c, rest);
    SameLog(x, y, |cmds| + 1);
    if Step(setup.rom, x.cpu).Ok? {
      StepCounts(setup.rom, x.cpu);
    }
  }

  lemma SameLog(x: Session, y: Session, n: nat)
    requires x.log == y.log && x.cpu == y.cpu
    ensures LogAfter(x, n) == LogAfter(y, n)
  {
  }

  /** Between breakpoints an iteration runs one instruction and reads nothing. */
  lemma FreeStep(setup: Setup, y: Session)
    requires !y.replay && !y.stepone && y.cpu.pc !in y.breaks && !y.cpu.skip
    ensures var r := LoopStep(setup, y);
      && r.x.script == y.script && r.x.log == y.log && r.x.breaks == y.breaks && !r.x.replay && !r.x.stepone
      && (r.Again? <==> Step(setup.rom, y.cpu).Ok? && (setup.limit == 0 || y.cpu.insns + 1 < setup.limit))
      && (r.Again? ==> r.x.cpu == Step(setup.rom, y.cpu).value)
  {
    hide Step, Traced, Interact;
    if Step(setup.rom, y.cpu).Ok? {
      StepCounts(setup.rom, y.cpu);
    }
  }

  // ----- continue -----

  /** After a continue, as long as no armed address has been reached: nothing more is read, and the loop follows the run
      until a fault or the limit. */
  lemma {:induction false} ContinueRuns(setup: Setup, x: Session, cmds: seq<Command>, rest: seq<Command>, j: nat)
    requires Sends(setup, x, cmds, Continue, rest) && j > 0
    requires forall i: nat | i < j :: !Hits(setup, x, cmds, i)
    ensures var r := Loop(setup, x, j);
      && Served(x, r.x, cmds, rest) && !r.x.stepone
      && (r.Again? <==> Run(setup.rom, x.cpu, j).Ok? && (setup.limit == 0 || x.cpu.insns + j < setup.limit))
      && (r.Again? ==> r.x.cpu == Run(setup.rom, x.cpu, j).value)
  {
    hide LoopStep, Step, Sends, Armed, LogAfter;
    if j == 1 {
      assert Loop(setup, x, 0) == Again(x) && Run(setup.rom, x.cpu, 0) == Ok(x.cpu);
      PromptStep(setup, x, cmds, Continue, rest);
    } else {
      ContinueRuns(setup, x, cmds, rest, j - 1);
      var r := Loop(setup, x, j - 1);
      SkipClear(setup, x, cmds, Continue, rest);
      if r.Again? {
        RunCounts(setup.rom, x.cpu, j - 1);
        assert !Hits(setup, x, cmds, j - 1);
        FreeStep(setup, r.x);
      }
    }
  }

  lemma SkipClear(setup: Setup, x: Session, cmds: seq<Command>, c: Command, rest: seq<Command>)
    requires Sends(setup, x, cmds, c, rest)
    ensures !x.cpu.skip
  {
  }

  /** The next command is read, at that count, or waited for. */
  predicate ReadsAt(r: Progress, log: seq<nat>, rest: seq<Command>, insns: nat) {
    if rest == [] then r.Halted? && r.halt == Waiting && r.x.log == log
    else |r.x.log| > |log| && r.x.log[..|log|] == log && r.x.log[|log|] == insns
  }

  lemma {:induction false} InteractReads(x: Session)
    ensures ReadsAt(Interact(x), x.log, x.script, x.cpu.insns)
    ensures |Interact(x).x.log| >= |x.log| && Interact(x).x.log[..|x.log|] == x.log
    decreases |x.script|
  {
    if x.script != [] {
      var y := Obeyed(x.script[0], x.(script := x.script[1..], log := x.log + [x.cpu.insns]));
      if !Ends(x.script[0], x.cpu.insns) {
        InteractReads(y);
        var log := Interact(y).x.log;
        assert log[..|x.log|] == log[..|y.log|][..|x.log|];
        assert log[|x.log|] == log[..|y.log|][|x.log|];
      }
    }
  }

  lemma PromptReads(setup: Setup, y: Session)
    requires setup.attached && !y.replay && (y.stepone || y.cpu.pc in y.breaks)
    ensures ReadsAt(LoopStep(setup, y), y.log, y.script, y.cpu.insns)
  {
    hide Step, Traced, Interact;
    InteractReads(y.(stepone := false));
  }

  /** Continue: the next command is read after k more instructions, where k is the least number of them after which the
      program stands at an armed address, and none is read before. */
  lemma ContinueStops(setup: Setup, x: Session, cmds: seq<Command>, rest: seq<Command>, k: nat)
    requires Sends(setup, x, cmds, Continue, rest)
    requires Hits(setup, x, cmds, k) && forall i: nat | i < k :: !Hits(setup, x, cmds, i)
    ensures forall j: nat | 0 < j <= k :: Loop(setup, x, j).Again? && Served(x, Loop(setup, x, j).x, cmds, rest)
    ensures Loop(setup, x, k).x.cpu == Run(setup.rom, x.cpu, k).value
    ensures ReadsAt(Loop(setup, x, k + 1), LogAfter(x, |cmds| + 1), rest, x.cpu.insns + k)
  {
    hide LoopStep, Step, Armed, LogAfter, ReadsAt, Served;
    forall j: nat | 0 < j <= k
      ensures Loop(setup, x, j).Again? && Served(x, Loop(setup, x, j).x, cmds, rest)
    {
      ContinueRuns(setup, x, cmds, rest, j);
      RunPrefix(setup.rom, x.cpu, j, k);
    }
    ContinueRuns(setup, x, cmds, rest, k);
    var y := Loop(setup, x, k).x;
    StandsArmed(setup, x, y, cmds, rest, k);
    PromptReads(setup, y);
  }

  lemma StandsArmed(setup: Setup, x: Session, y: Session, cmds: seq<Command>, rest: seq<Command>, k: nat)
    requires Served(x, y, cmds, rest) && Hits(setup, x, cmds, k)
    requires y.cpu == Run(setup.rom, x.cpu, k).value && !x.cpu.skip
    ensures !y.replay && y.cpu.pc in y.breaks && y.cpu.insns == x.cpu.insns + k
    ensures y.log == LogAfter(x, |cmds| + 1) && y.script == rest
  {
    hide Run, Armed, LogAfter;
    RunCounts(setup.rom, x.cpu, k);
  }

  lemma {:induction false} RunPrefix(rom: Rom, s: State, j: nat, k: nat)
    requires j <= k && Run(rom, s, k).Ok?
    ensures Run(rom, s, j).Ok?
    decreases k - j
  {
    hide Step;
    if j < k {
      RunPrefix(rom, s, j, k - 1);
    }
  }

  lemma {:induction false} LeastHit(setup: Setup, x: Session, cmds: seq<Command>, k: nat) returns (least: nat)
    requires Hits(setup, x, cmds, k)
    ensures Hits(setup, x, cmds, least) && forall i: nat | i < least :: !Hits(setup, x, cmds, i)
    decreases k
  {
    hide Hits;
    if i: nat :| i < k && Hits(setup, x, cmds, i) {
      least := LeastHit(setup, x, cmds, i);
    } else {
      least := k;
    }
  }

  /** With commands left to send, a continue is followed by another stop exactly when the program comes to an armed
      address before it faults or reaches the limit. */
  lemma ContinueIff(setup: Setup, x: Session, cmds: seq<Command>, rest: seq<Command>)
    requires Sends(setup, x, cmds, Continue, rest) && rest != []
    ensures (exists j: nat :: |Loop(setup, x, j).x.log| > |x.log| + |cmds| + 1)
       <==> (exists k: nat :: Hits(setup, x, cmds, k))
  {
    hide LoopStep, Step, Armed, Hits, Sends, Served;
    if k: nat :| Hits(setup, x, cmds, k) {
      var least := LeastHit(setup, x, cmds, k);
      ContinueStops(setup, x, cmds, rest, least);
      assert |Loop(setup, x, least + 1).x.log| > |x.log| + |cmds| + 1;
    } else {
      forall j: nat ensures |Loop(setup, x, j).x.log| <= |x.log| + |cmds| + 1 {
        if j > 0 {
          ContinueRuns(setup, x, cmds, rest, j);
          ServedLog(x, Loop(setup, x, j).x, cmds, rest);
        }
      }
    }
  }

  lemma ServedLog(x: Session, y: Session, cmds: seq<Command>, rest: seq<Command>)
    requires Served(x, y, cmds, rest)
    ensures |y.log| == |x.log| + |cmds| + 1
  {
    hide Armed;
  }

  // ----- single steps -----

  /** A step is followed by a stop after one instruction, whatever the breakpoints. */
  lemma StepStops(setup: Setup, x: Session, cmds: seq<Command>, rest: seq<Command>)
    requires Sends(setup, x, cmds, StepOne, rest) && Step(setup.rom, x.cpu).Ok?
    requires setup.limit == 0 || x.cpu.insns + 1 < setup.limit
    ensures Loop(setup, x, 1).Again? && Served(x, Loop(setup, x, 1).x, cmds, rest)
    ensures Loop(setup, x, 1).x.cpu == Step(setup.rom, x.cpu).value
    ensures ReadsAt(Loop(setup, x, 2), LogAfter(x, |cmds| + 1), rest, x.cpu.insns + 1)
  {
    hide LoopStep, Step, Armed, LogAfter, ReadsAt, Stays;
    assert Loop(setup, x, 0) == Again(x);
    PromptStep(setup, x, cmds, StepOne, rest);
    assert Loop(setup, x, 1) == LoopStep(setup, x);
    StepCounts(setup.rom, x.cpu);
    PromptReads(setup, Loop(setup, x, 1).x);
  }

  // ----- an example: the idle loop -----

  /** On the idle loop at 0, a breakpoint at 0 stops a continue after one instruction. */
  lemma IdleStops(setup: Setup, m: Memory, rest: seq<Command>)
    requires setup.attached && setup.limit == 0 && SameRows(setup.rom.table) && setup.rom.flash[0] == 0xcfff
    ensures ReadsAt(Loop(setup, Begin(setup, m, [AddBreak(0), Continue] + rest), 2), [0, 0], rest, 1)
  {
    hide Loop, SameRows, Fetch, Step, ReadsAt, Run;
    var x, cmds := Begin(setup, m, [AddBreak(0), Continue] + rest), [AddBreak(0)];
    assert x.script == cmds + [Continue] + rest;
    Idles(setup.rom, x.cpu, 1);
    assert Armed(0, false, cmds) by {
      assert cmds[1..] == [];
    }
    ContinueStops(setup, x, cmds, rest, 1);
    assert LogAfter(x, 2) == [0, 0];
  }

  /** Without one, nothing is read again. */
  lemma IdleRuns(setup: Setup, m: Memory, rest: seq<Command>, j: nat)
    requires setup.attached && setup.limit == 0 && SameRows(setup.rom.table) && setup.rom.flash[0] == 0xcfff
    requires j > 0
    ensures var r := Loop(setup, Begin(setup, m, [Continue] + rest), j);
      r.Again? && r.x.log == [0] && r.x.script == rest && r.x.cpu.insns == j
  {
    hide Loop, SameRows, Fetch, Step, Run;
    var x := Begin(setup, m, [Continue] + rest);
    assert x.script == [] + [Continue] + rest;
    Idles(setup.rom, x.cpu, j);
    forall i: nat | i < j ensures !Hits(setup, x, [], i) {
      Idles(setup.rom, x.cpu, i);
    }
    ContinueRuns(setup, x, [], rest, j);
    assert LogAfter(x, 1) == [0];
  }
}
