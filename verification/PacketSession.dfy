/**
 A whole debugging session driven by packets.

 The emulate loop with the packets still to come in place of a script: each
 prompt serves packets until one resumes execution.  It is the loop of `Debugger`
 on the commands those packets carry, so every theorem about sessions holds of it.
 */
module PacketSession {
  import opened Cpu
  import opened Debugger
  import opened Framing
  import opened Packets

  /** Session x with the script that the packets stand for. */
  function With(x: Session, wire: seq<Item>): (y: Session)
    requires AllWhole(wire) && Plain(wire)
  {
    x.(script := Script(wire))
  }

  function WithAll(r: Progress, wire: seq<Item>): (q: Progress)
    requires AllWhole(wire) && Plain(wire)
  {
    match r
    case Again(x) => Again(With(x, wire))
    case Halted(x, halt) => Halted(With(x, wire), halt)
  }

  /** gdbstub_interactive on the packets to come, until one resumes execution or there are no more. */
  function Prompt(x: Session, wire: seq<Item>): (r: (Progress, seq<Item>))
    requires AllWhole(wire)
  {
    var (l, rest) := Serve(wire, x.cpu.insns, LinkOf(x, "", []));
    var y := x.(stepone := l.stepone, replay := l.replay, lim := l.lim, breaks := l.breaks,
                log := Logged(x.log, x.cpu.insns, |l.calls|));
    (if l.execute then Again(y) else Halted(y, Waiting), rest)
  }

  /** gdbstub_intr outside a replay, behind the end of a replay. */
  function Stop(setup: Setup, x: Session, wire: seq<Item>): (r: (Progress, seq<Item>))
    requires AllWhole(wire)
  {
    var y := EndReplay(x);
    if y.replay || !setup.attached then (Again(y), wire)
    else if y.stepone then Prompt(y.(stepone := false), wire)
    else if y.cpu.pc in y.breaks then Prompt(y, wire)
    else (Again(y), wire)
  }

  /** One iteration of the emulate loop. */
  function Iterate(setup: Setup, x: Session, wire: seq<Item>): (r: (Progress, seq<Item>))
    requires AllWhole(wire)
  {
    var (z, rest) := Stop(setup, x, wire);
    if z.Halted? then (z, rest)
    else if z.x.replay && z.x.lim < z.x.cpu.insns then (Again(Restart(z.x)), rest)
    else (Advance(setup, z.x), rest)
  }

  lemma PromptIs(x: Session, wire: seq<Item>)
    requires AllWhole(wire) && Plain(wire)
    ensures var (r, rest) := Prompt(x, wire);
      AllWhole(rest) && Plain(rest) && Interact(With(x, wire)) == WithAll(r, rest)
  {
    hide Serve, Script, Plain, Interact, Logged;
    ServeIsInteract(wire, With(x, wire), "", []);
  }

  lemma StopIs(setup: Setup, x: Session, wire: seq<Item>)
    requires AllWhole(wire) && Plain(wire)
    ensures var (r, rest) := Stop(setup, x, wire);
      AllWhole(rest) && Plain(rest) && Prompted(setup, With(x, wire)) == WithAll(r, rest)
  {
    hide Prompt, Script, Plain, Interact;
    var y := EndReplay(x);
    PromptIs(y, wire);
    PromptIs(y.(stepone := false), wire);
  }

  lemma AdvanceIs(setup: Setup, x: Session, wire: seq<Item>)
    requires AllWhole(wire) && Plain(wire)
    ensures Advance(setup, With(x, wire)) == WithAll(Advance(setup, x), wire)
  {
    hide Script, Plain, Step, Traced;
  }

  lemma IterateIs(setup: Setup, x: Session, wire: seq<Item>)
    requires AllWhole(wire) && Plain(wire)
    ensures var (r, rest) := Iterate(setup, x, wire);
      AllWhole(rest) && Plain(rest) && LoopStep(setup, With(x, wire)) == WithAll(r, rest)
  {
    hide Stop, Script, Plain, Advance, Prompted;
    StopIs(setup, x, wire);
    var (z, rest) := Stop(setup, x, wire);
    AdvanceIs(setup, z.x, rest);
  }

  /** The session after n iterations, with the packets not read yet. */
  function Iterations(setup: Setup, x: Session, wire: seq<Item>, n: nat): (r: (Progress, seq<Item>))
    requires AllWhole(wire)
    ensures AllWhole(r.1)
  {
    if n == 0 then (Again(x), wire)
    else
      var (y, rest) := Iterations(setup, x, wire, n - 1);
      match y
      case Halted(_, _) => (y, rest)
      case Again(z) => ServeKeepsWhole(setup, z, rest); Iterate(setup, z, rest)
  }

  lemma {:induction false} ServeWhole(xs: seq<Item>, insns: nat, x: Link)
    requires AllWhole(xs)
    ensures AllWhole(Serve(xs, insns, x).1)
  {
    hide Deliver, Whole;
    if xs != [] {
      ServeWhole(xs[1..], insns, if xs[0].Ack? then x else Deliver(xs[0], insns, x));
    }
  }

  lemma ServeKeepsWhole(setup: Setup, x: Session, wire: seq<Item>)
    requires AllWhole(wire)
    ensures AllWhole(Iterate(setup, x, wire).1)
  {
    hide Serve, Advance, AllWhole;
    var y := EndReplay(x);
    ServeWhole(wire, y.cpu.insns, LinkOf(y, "", []));
    ServeWhole(wire, y.cpu.insns, LinkOf(y.(stepone := false), "", []));
  }

  /** Any number of iterations of the packet-driven session are those of the session on the commands in the packets. */
  lemma {:induction false} SessionIsLoop(setup: Setup, x: Session, wire: seq<Item>, n: nat)
    requires AllWhole(wire) && Plain(wire)
    ensures var (r, rest) := Iterations(setup, x, wire, n);
      Plain(rest) && Loop(setup, With(x, wire), n) == WithAll(r, rest)
  {
    hide Iterate, Script, Plain, LoopStep;
    if n > 0 {
      SessionIsLoop(setup, x, wire, n - 1);
      var (r, rest) := Iterations(setup, x, wire, n - 1);
      if r.Again? {
        IterateIs(setup, r.x, rest);
      }
    }
  }

  /** From the start: a session over packets is the session over their commands. */
  lemma PacketSessionIsLoop(setup: Setup, m: Memory, wire: seq<Item>, n: nat)
    requires AllWhole(wire) && Plain(wire)
    ensures var (r, rest) := Iterations(setup, Begin(setup, m, []), wire, n);
      Plain(rest) && Loop(setup, Begin(setup, m, Script(wire)), n) == WithAll(r, rest)
  {
    hide Iterations, Loop, Script, Plain;
    SessionIsLoop(setup, Begin(setup, m, []), wire, n);
  }
}
