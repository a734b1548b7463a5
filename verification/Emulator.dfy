/**
 The emulate loop and the debugger stub as the program runs them: global flags
 changed in place around calls of emulate1.  Proved against `Debugger`.
 */
module Emulator {
  import opened Isa
  import opened Cpu
  import opened Debugger
  import opened Machine

  class Emulator {
    const machine: Machine
    const attached: bool
    const limit: nat
    const tracing: bool
    var replayMode: bool
    var replayLim: nat
    var stepone: bool
    var execute: bool
    var breakpoints: set<u32>
    var script: seq<Command>
    var log: seq<nat>
    var trace: seq<bv16>
    ghost var start: Memory

    ghost predicate Valid() {
      machine.Valid()
    }

    ghost function Abs(): Session
      requires Valid()
      reads this, machine, machine.memory
    {
      Session(machine.Abs(), replayMode, replayLim, stepone, breakpoints, script, log, trace, start)
    }

    ghost function Config(): Setup {
      Setup(machine.rom, attached, limit, tracing)
    }

    constructor (machine: Machine, attached: bool, limit: nat, tracing: bool, script: seq<Command>)
      requires machine.Valid() && machine.Abs() == Reset(machine.Mem())
      ensures Valid() && this.machine == machine
      ensures Config() == Setup(machine.rom, attached, limit, tracing)
      ensures Abs() == Begin(Config(), machine.Mem(), script)
    {
      this.machine := machine;
      this.attached, this.limit, this.tracing := attached, limit, tracing;
      replayMode, replayLim, stepone, execute := false, 0, attached, false;
      breakpoints, this.script, log, trace := {}, script, [], [];
      start := machine.Mem();
    }

    /** The outcome p is what happened.  After a fault the process exits, so only its trace is left to compare. */
    ghost predicate Reports(p: Progress, r: Option<Halt>)
      requires Valid()
      reads this, machine, machine.memory
    {
      match p
      case Again(x) => r.None? && Abs() == x
      case Halted(x, halt) => r == Some(halt) && trace == x.trace && (halt.Fault? || Abs() == x)
    }

    /** gdb_bstep. */
    method BackwardStep()
      requires Valid()
      modifies `replayMode, `replayLim, `execute
      ensures machine.insns > 0 ==> replayMode && replayLim == machine.insns - 1 && execute == old(execute)
      ensures machine.insns == 0 ==> !execute && replayMode == old(replayMode) && replayLim == old(replayLim)
    {
      if machine.insns > 0 {
        replayMode := true;
        replayLim := machine.insns - 1;
      } else {
        execute := false;
      }
    }

    /** The dispatch of one command. */
    method Obey(c: Command)
      requires Valid()
      modifies `execute, `replayMode, `replayLim, `stepone, `breakpoints
      ensures Abs() == Obeyed(c, old(Abs())) && execute == Ends(c, machine.insns)
    {
      execute := c.Continue? || c.StepOne? || c.BackStep?;
      match c {
        case StepOne => stepone := true;
        case BackStep => BackwardStep();
        case Continue =>
        case Inspect =>
        case AddBreak(a) => breakpoints := breakpoints + {a};
        case RemoveBreak(a) => breakpoints := breakpoints - {a};
      }
    }

    /** The command loop of gdbstub_interactive: true when told to go on, false when it runs out of commands. */
    method Interactive() returns (resumed: bool)
      requires Valid()
      modifies `execute, `replayMode, `replayLim, `stepone, `breakpoints, `script, `log
      ensures Interact(old(Abs())) == if resumed then Again(Abs()) else Halted(Abs(), Waiting)
    {
      hide Obeyed, Ends;
      execute := false;
      while !execute
        invariant !execute ==> Interact(old(Abs())) == Interact(Abs())
        invariant execute ==> Interact(old(Abs())) == Again(Abs())
        decreases |script|, !execute
      {
        if script == [] {
          return false;
        }
        var c := script[0];
        script := script[1..];
        log := log + [machine.insns];
        Obey(c);
      }
      resumed := true;
    }

    /** gdbstub_intr. */
    method Interrupt() returns (resumed: bool)
      requires Valid()
      modifies `execute, `replayMode, `replayLim, `stepone, `breakpoints, `script, `log
      ensures Intr(attached, old(Abs())) == if resumed then Again(Abs()) else Halted(Abs(), Waiting)
    {
      hide Interact;
      if !attached {
        return true;
      }
      var interact := false;
      if stepone {
        interact := true;
        stepone := false;
      } else if machine.pc in breakpoints {
        interact := true;
      }
      resumed := true;
      if interact {
        resumed := Interactive();
      }
    }

    /** The end of a replay, and the call of gdbstub_intr outside one. */
    method Prompt() returns (resumed: bool)
      requires Valid()
      modifies `execute, `replayMode, `replayLim, `stepone, `breakpoints, `script, `log
      ensures Prompted(Config(), old(Abs())) == if resumed then Again(Abs()) else Halted(Abs(), Waiting)
    {
      hide Intr;
      if replayMode && machine.insns >= replayLim {
        replayMode := false;
        replayLim := 0;
        stepone := true;
      }
      resumed := true;
      if !replayMode {
        resumed := Interrupt();
      }
    }

    /** emulate1 and the limit check. */
    method RunOne() returns (r: Option<Halt>)
      requires Valid()
      modifies `trace, machine, machine.memory
      ensures Reports(Advance(Config(), old(Abs())), r)
    {
      hide Step, Traced;
      var out, emitted := machine.Emulate1(tracing && !replayMode);
      trace := trace + emitted;
      if out.Abort? {
        return Some(Fault(out.why));
      }
      if limit > 0 && machine.insns >= limit {
        return Some(LimitHit);
      }
      r := None;
    }

    /** One iteration of the loop in emulate. */
    method Iterate() returns (r: Option<Halt>)
      requires Valid()
      modifies this, machine, machine.memory
      ensures Reports(LoopStep(Config(), old(Abs())), r)
    {
      hide Step, Prompted, Advance;
      var resumed := Prompt();
      if !resumed {
        return Some(Waiting);
      }
      if replayMode && replayLim < machine.insns {
        start := machine.Mem();
        machine.Init();
        return None;
      }
      r := RunOne();
    }

    /** emulate, stopped after at most n iterations: every prefix of every session. */
    method Emulate(n: nat) returns (r: Option<Halt>)
      requires Valid()
      modifies this, machine, machine.memory
      ensures Reports(Loop(Config(), old(Abs()), n), r)
    {
      hide LoopStep;
      var i := 0;
      while i < n
        invariant i <= n && Loop(Config(), old(Abs()), i) == Again(Abs())
      {
        r := Iterate();
        i := i + 1;
        if r.Some? {
          HaltedStays(Config(), old(Abs()), i, n);
          return;
        }
      }
      r := None;
    }
  }

  lemma {:induction false} HaltedStays(setup: Setup, x: Session, i: nat, n: nat)
    requires i <= n && Loop(setup, x, i).Halted?
    ensures Loop(setup, x, n) == Loop(setup, x, i)
  {
    hide LoopStep;
    if i < n {
      HaltedStays(setup, x, i, n - 1);
    }
  }
}
