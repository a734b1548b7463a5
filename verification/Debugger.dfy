/**
 The emulate loop under a debugger: single steps, reverse steps by replay, and
 the instruction limit.

 The debugger is the list of commands it will send; `log` records the
 instruction count at which each was read, and `start` the data memory at the
 last reset.  One iteration of the loop is `LoopStep`.
 */
module Debugger {
  import opened Cpu
  import opened Steps

  /** Inspect stands for every request that only reads. */
  datatype Command = StepOne | BackStep | Continue | Inspect | AddBreak(addr: u32) | RemoveBreak(addr: u32)

  datatype Setup = Setup(rom: Rom, attached: bool, limit: nat, tracing: bool)

  datatype Session = Session(cpu: State, replay: bool, lim: nat, stepone: bool, breaks: set<u32>,
                             script: seq<Command>, log: seq<nat>, trace: seq<bv16>, start: Memory)

  datatype Halt = LimitHit | Waiting | Fault(why: Fault)
  datatype Progress = Again(x: Session) | Halted(x: Session, halt: Halt)

  /** The session after command c has been carried out. */
  function Obeyed(c: Command, x: Session): (y: Session) {
    match c
    case StepOne => x.(stepone := true)
    case BackStep => if x.cpu.insns > 0 then x.(replay := true, lim := x.cpu.insns - 1) else x
    case Continue => x
    case Inspect => x
    case AddBreak(a) => x.(breaks := x.breaks + {a})
    case RemoveBreak(a) => x.(breaks := x.breaks - {a})
  }

  /** Whether command c, read at the given count, ends the prompt. */
  predicate Ends(c: Command, insns: nat) {
    c.Continue? || c.StepOne? || (c.BackStep? && insns > 0)
  }

  /** gdbstub_interactive: serve commands until one resumes execution, or wait for more. */
  function Interact(x: Session): (r: Progress)
    decreases |x.script|
  {
    if x.script == [] then Halted(x, Waiting)
    else
      var c := x.script[0];
      var y := Obeyed(c, x.(script := x.script[1..], log := x.log + [x.cpu.insns]));
      if Ends(c, x.cpu.insns) then Again(y) else Interact(y)
  }

  /** gdbstub_intr, called before each instruction that is not replayed. */
  function Intr(attached: bool, x: Session): (r: Progress) {
    if !attached then Again(x)
    else if x.stepone then Interact(x.(stepone := false))
    else if x.cpu.pc in x.breaks then Interact(x)
    else Again(x)
  }

  /** The end of a replay hands control back to the debugger. */
  function EndReplay(x: Session): (y: Session) {
    if x.replay && x.cpu.insns >= x.lim then x.(replay := false, lim := 0, stepone := true) else x
  }

  /** emulate1 and the limit check. */
  function Advance(setup: Setup, x: Session): (r: Progress) {
    var y := x.(trace := x.trace + if setup.tracing && !x.replay then Traced(setup.rom, x.cpu) else []);
    match Step(setup.rom, x.cpu)
    case Abort(why) => Halted(y, Fault(why))
    case Ok(t) =>
      if setup.limit > 0 && t.insns >= setup.limit then Halted(y.(cpu := t), LimitHit) else Again(y.(cpu := t))
  }

  /** init(), pc = 0. */
  function Restart(x: Session): (y: Session) {
    x.(cpu := Reset(x.cpu.mem), start := x.cpu.mem)
  }

  /** The session after the replay check and the prompt, before anything runs. */
  function Prompted(setup: Setup, x: Session): (r: Progress) {
    var y := EndReplay(x);
    if y.replay then Again(y) else Intr(setup.attached, y)
  }

  /** One iteration of the emulate loop. */
  function LoopStep(setup: Setup, x: Session): (r: Progress) {
    var z := Prompted(setup, x);
    if z.Halted? then z
    else if z.x.replay && z.x.lim < z.x.cpu.insns then Again(Restart(z.x))
    else Advance(setup, z.x)
  }

  function Loop(setup: Setup, x: Session, n: nat): (r: Progress) {
    if n == 0 then Again(x)
    else
      match Loop(setup, x, n - 1)
      case Halted(y, halt) => Halted(y, halt)
      case Again(y) => LoopStep(setup, y)
  }

  /** The session when emulate is entered, with the debugger attached or not. */
  function Begin(setup: Setup, m: Memory, script: seq<Command>): (x: Session) {
    Session(Reset(m), false, 0, setup.attached, {}, script, [], [], m)
  }

  // ----- serving commands does not touch the machine -----

  /** What a stop at the prompt can change. */
  predicate OnlyPrompted(x: Session, y: Session) {
    y == x.(replay := y.replay, lim := y.lim, stepone := y.stepone, breaks := y.breaks, script := y.script,
            log := y.log)
  }

  lemma {:induction false} InteractKeeps(x: Session)
    requires !x.replay
    ensures var y := Interact(x).x;
      OnlyPrompted(x, y) && (y.replay ==> x.cpu.insns > 0 && y.lim == x.cpu.insns - 1)
    decreases |x.script|
  {
    if x.script != [] && !Ends(x.script[0], x.cpu.insns) {
      InteractKeeps(Obeyed(x.script[0], x.(script := x.script[1..], log := x.log + [x.cpu.insns])));
    }
  }

  lemma IntrKeeps(attached: bool, x: Session)
    requires !x.replay
    ensures var y := Intr(attached, x).x;
      OnlyPrompted(x, y) && (y.replay ==> x.cpu.insns > 0 && y.lim == x.cpu.insns - 1)
  {
    hide Interact;
    InteractKeeps(x.(stepone := false));
    InteractKeeps(x);
  }

  lemma PromptKeeps(setup: Setup, x: Session)
    ensures OnlyPrompted(x, Prompted(setup, x).x)
  {
    hide Intr;
    var y := EndReplay(x);
    if !y.replay {
      IntrKeeps(setup.attached, y);
    }
  }

  // ----- the machine is always a replay of its count -----

  /** The machine is what insns steps from the last reset lead to. */
  predicate Faithful(setup: Setup, x: Session) {
    Run(setup.rom, Reset(x.start), x.cpu.insns) == Ok(x.cpu)
  }

  lemma AdvanceFaithful(setup: Setup, x: Session)
    requires Faithful(setup, x)
    ensures var r := Advance(setup, x); (r.Halted? && r.halt.Fault?) || Faithful(setup, r.x)
  {
    hide Step, Traced;
    RunCounts(setup.rom, Reset(x.start), x.cpu.insns);
    if Step(setup.rom, x.cpu).Ok? {
      StepCounts(setup.rom, x.cpu);
    }
  }

  lemma LoopStepFaithful(setup: Setup, x: Session)
    requires Faithful(setup, x)
    ensures var r := LoopStep(setup, x); (r.Halted? && r.halt.Fault?) || Faithful(setup, r.x)
  {
    hide Step, Traced, Intr, EndReplay, Advance;
    PromptKeeps(setup, x);
    var z := Prompted(setup, x);
    if z.Again? {
      AdvanceFaithful(setup, z.x);
    }
  }

  /** At every head of the loop, with no debugger writes, the machine equals Run(insns, Reset(start)). */
  lemma {:induction false} LoopFaithful(setup: Setup, m: Memory, script: seq<Command>, n: nat)
    requires Loop(setup, Begin(setup, m, script), n).Again?
    ensures Faithful(setup, Loop(setup, Begin(setup, m, script), n).x)
  {
    hide LoopStep;
    if n > 0 {
      LoopFaithful(setup, m, script, n - 1);
      LoopStepFaithful(setup, Loop(setup, Begin(setup, m, script), n - 1).x);
    }
  }

  lemma LoopKeepsSkipClear(setup: Setup, x: Session)
    requires Faithful(setup, x)
    ensures !x.cpu.skip
  {
    RunCounts(setup.rom, Reset(x.start), x.cpu.insns);
  }

  // ----- stepping back and forth -----

  /** The count after a list of steps and reverse steps: a walk that stops at zero. */
  function Walk(cmds: seq<Command>): (n: nat) {
    if cmds == [] then 0
    else
      var w := Walk(cmds[..|cmds| - 1]);
      match cmds[|cmds| - 1]
      case StepOne => w + 1
      case BackStep => if w > 0 then w - 1 else 0
      case _ => w
  }

  predicate Stepping(cmds: seq<Command>) {
    forall c | c in cmds :: c == StepOne || c == BackStep
  }

  /** So many commands have been served, each at the count the walk predicts. */
  predicate LogOk(cmds: seq<Command>, x: Session) {
    && |x.log| <= |cmds| && x.script == cmds[|x.log|..] && x.breaks == {}
    && forall k | 0 <= k < |x.log| :: x.log[k] == Walk(cmds[..k])
  }

  /** Invariant of the loop head for a debugger that only steps and reverse-steps. */
  predicate OnWalk(cmds: seq<Command>, x: Session) {
    && LogOk(cmds, x)
    && var w := Walk(cmds[..|x.log|]);
    && (!x.replay ==> x.stepone && x.cpu.insns == w)
    && (x.replay ==> x.lim == w && x.cpu.insns <= w)
  }

  lemma WalkSnoc(cmds: seq<Command>, k: nat)
    requires k < |cmds|
    ensures Walk(cmds[..k + 1])
         == match cmds[k] case StepOne => Walk(cmds[..k]) + 1
                          case BackStep => if Walk(cmds[..k]) > 0 then Walk(cmds[..k]) - 1 else 0
                          case _ => Walk(cmds[..k])
  {
    assert cmds[..k + 1][..k] == cmds[..k];
  }

  lemma {:induction false} InteractWalks(cmds: seq<Command>, x: Session)
    requires Stepping(cmds) && LogOk(cmds, x) && !x.replay && x.cpu.insns == Walk(cmds[..|x.log|])
    ensures var r := Interact(x);
      && LogOk(cmds, r.x) && r.x.cpu == x.cpu
      && var w := Walk(cmds[..|r.x.log|]);
      && (r.Again? && !r.x.replay ==> r.x.stepone && w == x.cpu.insns + 1)
      && (r.Again? && r.x.replay ==> x.cpu.insns > 0 && r.x.lim == w == x.cpu.insns - 1)
    decreases |x.script|
  {
    hide Walk;
    if x.script != [] {
      var k := |x.log|;
      assert x.script[0] == cmds[k] && cmds[k] in cmds;
      WalkSnoc(cmds, k);
      var y := x.(script := x.script[1..], log := x.log + [x.cpu.insns]);
      assert LogOk(cmds, y);
      if x.script[0] == BackStep && x.cpu.insns == 0 {
        InteractWalks(cmds, y);
      }
    }
  }

  lemma LoopStepWalks(setup: Setup, cmds: seq<Command>, x: Session)
    requires Stepping(cmds) && setup.attached && setup.limit == 0 && OnWalk(cmds, x) && Faithful(setup, x)
    ensures var r := LoopStep(setup, x); LogOk(cmds, r.x) && (r.Again? ==> OnWalk(cmds, r.x))
  {
    hide Walk, Step, Traced, Interact, Faithful;
    LoopKeepsSkipClear(setup, x);
    var y := EndReplay(x);
    if !y.replay {
      InteractWalks(cmds, y.(stepone := false));
    }
    if Step(setup.rom, x.cpu).Ok? {
      StepCounts(setup.rom, x.cpu);
    }
  }

  /** At each successive prompt the count is the walk of +1 and -1 that stops at zero. */
  lemma {:induction false} PromptsWalk(setup: Setup, m: Memory, cmds: seq<Command>, n: nat)
    requires Stepping(cmds) && setup.attached && setup.limit == 0
    ensures var r := Loop(setup, Begin(setup, m, cmds), n); LogOk(cmds, r.x) && (r.Again? ==> OnWalk(cmds, r.x))
  {
    hide LoopStep, Faithful;
    if n > 0 {
      PromptsWalk(setup, m, cmds, n - 1);
      if Loop(setup, Begin(setup, m, cmds), n - 1).Again? {
        LoopFaithful(setup, m, cmds, n - 1);
        LoopStepWalks(setup, cmds, Loop(setup, Begin(setup, m, cmds), n - 1).x);
      }
    }
  }

  /** An iteration on the walk serves a command or brings a replay one instruction nearer its end. */
  lemma IterationProgress(setup: Setup, cmds: seq<Command>, x: Session)
    requires Stepping(cmds) && setup.attached && setup.limit == 0 && OnWalk(cmds, x) && Faithful(setup, x)
    requires |x.log| < |cmds|
    ensures var r := LoopStep(setup, x);
      || |r.x.log| > |x.log|
      || (r.Halted? && r.halt.Fault?)
      || (r.Again? && |r.x.log| == |x.log| && x.replay && r.x.replay && r.x.lim == x.lim
          && x.cpu.insns < r.x.cpu.insns <= x.lim)
  {
    hide Walk, Step, Traced, Interact, Faithful;
    LoopKeepsSkipClear(setup, x);
    var y := EndReplay(x);
    if y.replay {
      if Step(setup.rom, x.cpu).Ok? {
        StepCounts(setup.rom, x.cpu);
      }
    } else {
      PromptServes(y.(stepone := false));
    }
  }

  lemma {:induction false} PromptServes(x: Session)
    requires x.script != []
    ensures |Interact(x).x.log| > |x.log|
    decreases |x.script|, 0
  {
    InteractLogs(Obeyed(x.script[0], x.(script := x.script[1..], log := x.log + [x.cpu.insns])));
  }

  lemma {:induction false} InteractLogs(x: Session)
    ensures |Interact(x).x.log| >= |x.log|
    decreases |x.script|, 1
  {
    if x.script != [] {
      PromptServes(x);
    }
  }

  /** After k iterations the emulator has exited on a fault, or every command has been served at its count. */
  predicate Settled(setup: Setup, m: Memory, cmds: seq<Command>, k: nat) {
    var r := Loop(setup, Begin(setup, m, cmds), k);
    (r.Halted? && r.halt.Fault?) || (|r.x.log| == |cmds| && LogOk(cmds, r.x))
  }

  /** How many instructions a replay still has to run. */
  function ToReplay(x: Session): (n: nat) {
    if x.replay && x.lim > x.cpu.insns then x.lim - x.cpu.insns else 0
  }

  lemma {:induction false} Settles(setup: Setup, m: Memory, cmds: seq<Command>, n: nat) returns (k: nat)
    requires Stepping(cmds) && setup.attached && setup.limit == 0 && Loop(setup, Begin(setup, m, cmds), n).Again?
    ensures Settled(setup, m, cmds, k)
    decreases
      |cmds| - |Loop(setup, Begin(setup, m, cmds), n).x.log|,
      ToReplay(Loop(setup, Begin(setup, m, cmds), n).x)
  {
    hide LoopStep, Faithful, Walk;
    var x := Loop(setup, Begin(setup, m, cmds), n).x;
    PromptsWalk(setup, m, cmds, n);
    if |x.log| == |cmds| {
      return n;
    }
    LoopFaithful(setup, m, cmds, n);
    IterationProgress(setup, cmds, x);
    PromptsWalk(setup, m, cmds, n + 1);
    var r := Loop(setup, Begin(setup, m, cmds), n + 1);
    if r.Again? {
      k := Settles(setup, m, cmds, n + 1);
    } else {
      OnlyWaits(setup, x);
      k := n + 1;
    }
  }

  /** Without a limit an iteration halts on a fault or for want of commands. */
  lemma OnlyWaits(setup: Setup, x: Session)
    requires setup.limit == 0
    ensures var r := LoopStep(setup, x); r.Halted? ==> r.halt.Fault? || r.x.script == []
  {
    hide Step, Traced, Interact;
    InteractWaits(EndReplay(x));
    InteractWaits(EndReplay(x).(stepone := false));
  }

  lemma {:induction false} InteractWaits(x: Session)
    ensures Interact(x).Halted? ==> Interact(x).x.script == []
    decreases |x.script|
  {
    if x.script != [] {
      InteractWaits(Obeyed(x.script[0], x.(script := x.script[1..], log := x.log + [x.cpu.insns])));
    }
  }

  /** Every list of steps and reverse steps is served to the end, each command at the count the walk predicts, unless
      an instruction aborts. */
  lemma AllServed(setup: Setup, m: Memory, cmds: seq<Command>)
    requires Stepping(cmds) && setup.attached && setup.limit == 0
    ensures exists k: nat :: Settled(setup, m, cmds, k)
  {
    hide Settled, LoopStep;
    var k := Settles(setup, m, cmds, 0);
  }

  // ----- replay -----

  /** An iteration that replays writes no trace. */
  lemma ReplayIsSilent(setup: Setup, x: Session)
    requires EndReplay(x).replay
    ensures LoopStep(setup, x).x.trace == x.trace
  {
    hide Step, Traced;
  }

  lemma {:induction false} LoopAdd(setup: Setup, x: Session, a: nat, b: nat)
    requires Loop(setup, x, a).Again?
    ensures Loop(setup, x, a + b) == Loop(setup, Loop(setup, x, a).x, b)
    decreases b
  {
    hide LoopStep;
    if b > 0 {
      LoopAdd(setup, x, a, b - 1);
    }
  }

  /** A replay of lim instructions runs them one per iteration and changes nothing else. */
  lemma {:induction false} ReplayRuns(setup: Setup, y: Session, k: nat)
    requires y.replay && y.cpu == Reset(y.start) && k <= y.lim && (setup.limit == 0 || y.lim < setup.limit)
    requires Run(setup.rom, y.cpu, k).Ok?
    ensures Loop(setup, y, k) == Again(y.(cpu := Run(setup.rom, y.cpu, k).value))
  {
    hide Step, Traced, Intr;
    if k > 0 {
      ReplayRuns(setup, y, k - 1);
      RunCounts(setup.rom, y.cpu, k - 1);
      RunCounts(setup.rom, y.cpu, k);
    }
  }

  /** The prompt of x, for whatever reason it is reached, will be left by a reverse step, which is possible
      only from a count above zero. */
  predicate AboutToReverse(setup: Setup, x: Session) {
    var z := Prompted(setup, x);
    && !EndReplay(x).replay && z.Again? && z.x.replay && x.cpu.insns > 0
    && (setup.limit == 0 || x.cpu.insns < setup.limit)
  }

  /** The session once the reverse step has been read and the machine restarted. */
  function Rewound(setup: Setup, x: Session): (y: Session) {
    Restart(Prompted(setup, x).x)
  }

  lemma RewindStep(setup: Setup, x: Session)
    requires AboutToReverse(setup, x)
    ensures LoopStep(setup, x) == Again(Rewound(setup, x))
    ensures var y := Rewound(setup, x); y.replay && y.lim == x.cpu.insns - 1 && OnlyPrompted(x, Prompted(setup, x).x)
  {
    hide Advance, Intr;
    IntrKeeps(setup.attached, EndReplay(x));
    PromptKeeps(setup, x);
  }

  /** A replay that aborts ends the loop with the same fault. */
  lemma {:induction false} ReplayAborts(setup: Setup, y: Session, k: nat)
    requires y.replay && y.cpu == Reset(y.start) && k <= y.lim && (setup.limit == 0 || y.lim < setup.limit)
    requires Run(setup.rom, y.cpu, k).Abort?
    ensures var r := Loop(setup, y, k);
      r.Halted? && r.halt == Fault(Run(setup.rom, y.cpu, k).why) && r.x.trace == y.trace
  {
    hide Step, Traced, Intr;
    if Run(setup.rom, y.cpu, k - 1).Ok? {
      ReplayRuns(setup, y, k - 1);
      RunCounts(setup.rom, y.cpu, k - 1);
    } else {
      ReplayAborts(setup, y, k - 1);
    }
  }

  /** The session r that a reverse step from x hands back, with the machine in state t. */
  predicate HandsBack(setup: Setup, x: Session, r: Progress, t: State) {
    && r.Again? && r.x.cpu == t && t.insns == x.cpu.insns - 1
    && r.x.trace == x.trace && r.x.script == Prompted(setup, x).x.script && r.x.start == x.cpu.mem
    && Prompted(setup, r.x) == Interact(r.x.(replay := false, lim := 0, stepone := false))
  }

  /** A reverse step from count n restarts the machine on the memory it has and replays n - 1 instructions in n - 1
      iterations without tracing.  If that replay does not abort, control comes back to the debugger; if it does,
      the emulator exits with the replay's fault. */
  lemma ReverseStep(setup: Setup, x: Session)
    requires AboutToReverse(setup, x)
    ensures var n := x.cpu.insns;
      var r := Loop(setup, x, n);
      match Run(setup.rom, Reset(x.cpu.mem), n - 1)
      case Ok(t) => HandsBack(setup, x, r, t)
      case Abort(why) => r.Halted? && r.halt == Fault(why) && r.x.trace == x.trace
  {
    hide Step, Traced, LoopStep, Interact, Prompted;
    var n := x.cpu.insns;
    var y := Rewound(setup, x);
    RewindStep(setup, x);
    assert Loop(setup, x, 0) == Again(x);
    assert Loop(setup, x, 1) == Again(y);
    LoopAdd(setup, x, 1, n - 1);
    if Run(setup.rom, y.cpu, n - 1).Ok? {
      ReplayRuns(setup, y, n - 1);
      RunCounts(setup.rom, y.cpu, n - 1);
      AttachedIfPrompted(setup, x);
      PromptAfterReplay(setup, Loop(setup, x, n).x);
    } else {
      ReplayAborts(setup, y, n - 1);
    }
  }

  lemma AttachedIfPrompted(setup: Setup, x: Session)
    requires AboutToReverse(setup, x)
    ensures setup.attached
  {
    hide Interact;
  }

  lemma PromptAfterReplay(setup: Setup, x: Session)
    requires setup.attached && x.replay && x.cpu.insns >= x.lim
    ensures Prompted(setup, x) == Interact(x.(replay := false, lim := 0, stepone := false))
  {
    hide Interact;
  }

  /** A reverse step recovers the state the machine was in whenever the memory is back to what it was at the start. */
  lemma ReverseRestores(setup: Setup, x: Session)
    requires AboutToReverse(setup, x) && Faithful(setup, x) && x.cpu.mem == x.start
    ensures var past := Run(setup.rom, Reset(x.start), x.cpu.insns - 1);
      past.Ok? && Loop(setup, x, x.cpu.insns).Again? && Loop(setup, x, x.cpu.insns).x.cpu == past.value
  {
    hide Step, LoopStep;
    ReverseStep(setup, x);
  }

  // ----- the limit -----

  lemma LimitStep(setup: Setup, x: Session)
    requires setup.limit > 0 && x.cpu.insns < setup.limit
    ensures LoopStep(setup, x).Again? ==> LoopStep(setup, x).x.cpu.insns < setup.limit
  {
    hide Step, Traced, Intr;
    PromptKeeps(setup, x);
  }

  /** With a limit, the count is below it at every head of the loop, so a replay never trips it. */
  lemma {:induction false} BelowLimit(setup: Setup, m: Memory, script: seq<Command>, n: nat)
    requires setup.limit > 0
    ensures var r := Loop(setup, Begin(setup, m, script), n); r.Again? ==> r.x.cpu.insns < setup.limit
  {
    hide LoopStep;
    if n > 0 {
      BelowLimit(setup, m, script, n - 1);
      if Loop(setup, Begin(setup, m, script), n - 1).Again? {
        LimitStep(setup, Loop(setup, Begin(setup, m, script), n - 1).x);
      }
    }
  }

  /** Without a debugger each iteration is one instruction. */
  lemma {:induction false} FreeRun(setup: Setup, m: Memory, script: seq<Command>, n: nat)
    requires !setup.attached && (setup.limit == 0 || n < setup.limit) && Run(setup.rom, Reset(m), n).Ok?
    ensures var r := Loop(setup, Begin(setup, m, script), n);
      r.Again? && !r.x.replay && r.x.cpu == Run(setup.rom, Reset(m), n).value
  {
    hide Step, Traced, Interact;
    if n > 0 {
      FreeRun(setup, m, script, n - 1);
      RunCounts(setup.rom, Reset(m), n);
    }
  }

  /** With limit N > 0 and no debugger, emulate executes exactly N instructions, or aborts before. */
  lemma {:induction false} LimitExact(setup: Setup, m: Memory, script: seq<Command>, n: nat)
    requires !setup.attached && setup.limit > 0 && n >= setup.limit
    ensures var r, end := Loop(setup, Begin(setup, m, script), n), Run(setup.rom, Reset(m), setup.limit);
      && r.Halted?
      && (end.Ok? ==> r.halt == LimitHit && r.x.cpu == end.value && r.x.cpu.insns == setup.limit)
      && (end.Abort? ==> r.halt == Fault(end.why))
  {
    hide Step, Traced, Interact;
    if n > setup.limit {
      LimitExact(setup, m, script, n - 1);
    } else if Run(setup.rom, Reset(m), n - 1).Ok? {
      FreeRun(setup, m, script, n - 1);
      RunCounts(setup.rom, Reset(m), n - 1);
      if Run(setup.rom, Reset(m), n).Ok? {
        RunCounts(setup.rom, Reset(m), n);
      }
    } else {
      AbortsEarly(setup, m, script, n - 1);
    }
  }

  lemma {:induction false} AbortsEarly(setup: Setup, m: Memory, script: seq<Command>, n: nat)
    requires !setup.attached && n < setup.limit && Run(setup.rom, Reset(m), n).Abort?
    ensures var r := Loop(setup, Begin(setup, m, script), n);
      r.Halted? && r.halt == Fault(Run(setup.rom, Reset(m), n).why)
  {
    hide Step, Traced, Interact;
    if Run(setup.rom, Reset(m), n - 1).Ok? {
      FreeRun(setup, m, script, n - 1);
    } else {
      AbortsEarly(setup, m, script, n - 1);
    }
  }
}
