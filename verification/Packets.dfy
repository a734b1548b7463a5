/**
 The commands of the GDB stub: its dispatch table, what serving a stream of
 packets does, and the debugging session those packets amount to.
 */
module Packets {
  import opened Isa
  import opened Cpu
  import opened Debugger
  import opened RegisterText
  import opened Framing

  // ----- the dispatch table -----

  datatype Verb =
    | GetRegisters | SetRegisters | ReadMem | WriteMem | AddBreakpoint | RemBreakpoint | Attached | Supported
    | Why | HGeneral | HContinue | Go | StepForward | StepBack

  const DISPATCH: seq<Verb> := [
    GetRegisters, SetRegisters, ReadMem, WriteMem, AddBreakpoint, RemBreakpoint, Attached, Supported,
    Why, HGeneral, HContinue, Go, StepForward, StepBack
  ]

  function Name(v: Verb): (s: string)
    ensures |s| > 0
  {
    match v
    case GetRegisters => "g"
    case SetRegisters => "G"
    case ReadMem => "m"
    case WriteMem => "M"
    case AddBreakpoint => "Z0"
    case RemBreakpoint => "z0"
    case Attached => "qAttached"
    case Supported => "qSupported"
    case Why => "?"
    case HGeneral => "Hg"
    case HContinue => "Hc"
    case Go => "c"
    case StepForward => "s"
    case StepBack => "bs"
  }

  /** continue_exec. */
  predicate Resumes(v: Verb) {
    v.Go? || v.StepForward? || v.StepBack?
  }

  /** First entry of the table whose name begins the command. */
  function Find(table: seq<Verb>, c: string): (r: Option<Verb>)
    ensures r.Some? ==> r.value in table && Name(r.value) <= c
    ensures r.None? ==> forall v | v in table :: !(Name(v) <= c)
  {
    if table == [] then None
    else if Name(table[0]) <= c then Some(table[0])
    else Find(table[1..], c)
  }

  /** No name begins another, so no command matches twice. */
  lemma NamesDiffer(v: Verb, w: Verb, c: string)
    requires Name(v) <= c && Name(w) <= c
    ensures v == w
  {
    assert Name(v)[0] == c[0] == Name(w)[0];
    if |Name(v)| > 1 && |Name(w)| > 1 {
      assert Name(v)[1] == c[1] == Name(w)[1];
    }
  }

  /** The order of the table does not matter. */
  lemma OrderIsFree(table: seq<Verb>, c: string)
    requires multiset(table) == multiset(DISPATCH)
    ensures Find(table, c) == Find(DISPATCH, c)
  {
    hide Name;
    var r, s := Find(table, c), Find(DISPATCH, c);
    assert forall v :: v in table <==> v in multiset(table);
    assert forall v :: v in DISPATCH <==> v in multiset(DISPATCH);
    if r.Some? && s.Some? {
      NamesDiffer(r.value, s.value, c);
    }
  }

  /** Every verb is in the table and is found by its name. */
  lemma FindIs(c: string, v: Verb)
    requires Name(v) <= c
    ensures Find(DISPATCH, c) == Some(v)
  {
    hide Name;
    assert v in DISPATCH;
    NamesDiffer(Find(DISPATCH, c).value, v, c);
  }

  // ----- serving the stream -----

  datatype Request = Request(verb: Option<Verb>, text: string)

  /** What a packet may change. */
  datatype Link = Link(execute: bool, stepone: bool, replay: bool, lim: nat, breaks: set<u32>, acks: string,
                       calls: seq<Request>)

  /** The number in the hex digits t starts with. */
  function HexNumber(t: string, n: nat): (r: nat)
    requires n <= |t| && forall k | 0 <= k < n :: IsHex(t[k])
  {
    if n == 0 then 0 else 16 * HexNumber(t, n - 1) + HexVal(t[n - 1])
  }

  function HexRun(t: string): (n: nat)
    ensures n <= |t| && (forall k | 0 <= k < n :: IsHex(t[k])) && (n < |t| ==> !IsHex(t[n]))
  {
    if t == "" || !IsHex(t[0]) then 0 else 1 + HexRun(t[1..])
  }

  /** The address of a breakpoint command, read by sscanf(",%x") behind its two-letter name. */
  function BreakAddr(c: string): (r: Option<u32>) {
    if |c| < 3 || c[2] != ',' || HexRun(c[3..]) == 0 then None
    else
      var n := HexNumber(c[3..], HexRun(c[3..]));
      if n < 0x1_0000_0000 then Some(n) else None
  }

  /** The handler's effect on execution, and whether the command resumes it. */
  function Handle(v: Verb, c: string, insns: nat, x: Link): (y: Link) {
    var z := x.(execute := Resumes(v));
    match v
    case StepForward => z.(stepone := true)
    case StepBack => if insns > 0 then z.(replay := true, lim := insns - 1) else z.(execute := false)
    case AddBreakpoint => if BreakAddr(c).Some? then z.(breaks := z.breaks + {BreakAddr(c).value}) else z
    case RemBreakpoint => if BreakAddr(c).Some? then z.(breaks := z.breaks - {BreakAddr(c).value}) else z
    case _ => z
  }

  /** gdb_cmd. */
  function Deliver(p: Item, insns: nat, x: Link): (y: Link)
    requires p.Packet? && Whole(p)
  {
    if !Intact(p) then x.(acks := x.acks + "-")
    else if p.lead != '$' then x.(acks := x.acks + "+")
    else
      var c := Cut(p.data);
      var z := x.(acks := x.acks + "+", calls := x.calls + [Request(Find(DISPATCH, c), c)]);
      match Find(DISPATCH, c)
      case None => z
      case Some(v) => Handle(v, c, insns, z)
  }

  /** The packet loop: the link afterwards and the items not read. */
  function Serve(xs: seq<Item>, insns: nat, x: Link): (r: (Link, seq<Item>))
    requires AllWhole(xs)
  {
    if xs == [] then (x, [])
    else if xs[0].Ack? then Serve(xs[1..], insns, x)
    else
      var y := Deliver(xs[0], insns, x);
      if y.execute then (y, xs[1..]) else Serve(xs[1..], insns, y)
  }

  /** A packet whose data reaches the dispatch table. */
  predicate Accepted(x: Item)
    requires Whole(x)
  {
    x.Packet? && Intact(x) && x.lead == '$'
  }

  function CommandIn(x: Item): (cs: seq<string>)
    requires Whole(x)
  {
    if Accepted(x) then [Cut(x.data)] else []
  }

  /** The commands in a stretch of the stream, in order. */
  function Commands(xs: seq<Item>): (cs: seq<string>)
    requires AllWhole(xs)
  {
    if xs == [] then [] else CommandIn(xs[0]) + Commands(xs[1..])
  }

  function Calls(cs: seq<string>): (r: seq<Request>)
    ensures |r| == |cs| && forall k | 0 <= k < |cs| :: r[k] == Request(Find(DISPATCH, cs[k]), cs[k])
  {
    if cs == [] then [] else [Request(Find(DISPATCH, cs[0]), cs[0])] + Calls(cs[1..])
  }

  /** '+' for a packet whose checksum is right and '-' for one whose is not. */
  function Answer(x: Item): (t: string)
    requires Whole(x)
  {
    if x.Ack? then "" else if Intact(x) then "+" else "-"
  }

  function Answers(xs: seq<Item>): (t: string)
    requires AllWhole(xs)
  {
    if xs == [] then "" else Answer(xs[0]) + Answers(xs[1..])
  }

  /** A command that resumes execution: continue, step, or a reverse step past the start. */
  predicate Resuming(c: string, insns: nat) {
    "c" <= c || "s" <= c || ("bs" <= c && insns > 0)
  }

  predicate ResumingItem(x: Item, insns: nat)
    requires Whole(x)
  {
    Accepted(x) && Resuming(Cut(x.data), insns)
  }

  lemma ResumingVerb(c: string, insns: nat)
    ensures Resuming(c, insns)
       <==> var r := Find(DISPATCH, c); r.Some? && Resumes(r.value) && (r.value.StepBack? ==> insns > 0)
  {
    hide Find;
    var r := Find(DISPATCH, c);
    if r.Some? {
      assert Name(r.value) <= c;
    }
    if "c" <= c {
      FindIs(c, Go);
    } else if "s" <= c {
      FindIs(c, StepForward);
    } else if "bs" <= c {
      FindIs(c, StepBack);
    }
  }

  /** A delivered packet is answered, called if intact, and stops the loop if it resumes execution. */
  lemma DeliverExact(p: Item, insns: nat, x: Link)
    requires Whole(p) && p.Packet? && !x.execute
    ensures var y := Deliver(p, insns, x);
      && y.execute == ResumingItem(p, insns)
      && y.calls == x.calls + Calls(CommandIn(p))
      && y.acks == x.acks + Answer(p)
  {
    hide Find, Cut, Resuming;
    ResumingVerb(Cut(p.data), insns);
  }

  /** Where the loop stops: after the first resuming item, or at the end. */
  function Stop(xs: seq<Item>, insns: nat): (k: nat)
    requires AllWhole(xs)
    ensures k <= |xs|
    ensures forall j | 0 <= j < k - 1 :: !ResumingItem(xs[j], insns)
    ensures k < |xs| ==> k > 0 && ResumingItem(xs[k - 1], insns)
  {
    if xs == [] then 0 else if ResumingItem(xs[0], insns) then 1 else 1 + Stop(xs[1..], insns)
  }

  lemma {:induction false} CallsSum(a: seq<string>, b: seq<string>)
    ensures Calls(a + b) == Calls(a) + Calls(b)
  {
    hide Find;
  }

  lemma Cons(xs: seq<Item>)
    requires AllWhole(xs) && xs != []
    ensures Commands(xs) == CommandIn(xs[0]) + Commands(xs[1..])
    ensures Answers(xs) == Answer(xs[0]) + Answers(xs[1..])
  {
    hide CommandIn, Answer;
  }

  lemma Nothing()
    ensures Commands([]) == [] && Answers([]) == "" && Calls([]) == []
  {
  }

  lemma AckSilent(a: Item, insns: nat)
    requires Whole(a) && a.Ack?
    ensures CommandIn(a) == [] && Answer(a) == "" && !ResumingItem(a, insns)
  {
  }

  /** y and rest are what reading the first k items and no more leads to. */
  predicate ReadTo(xs: seq<Item>, k: nat, x: Link, y: Link, rest: seq<Item>)
    requires AllWhole(xs) && k <= |xs|
  {
    rest == xs[k..] && y.calls == x.calls + Calls(Commands(xs[..k])) && y.acks == x.acks + Answers(xs[..k])
  }

  lemma ReadOneMore(xs: seq<Item>, k: nat, x: Link, z: Link, y: Link, rest: seq<Item>)
    requires AllWhole(xs) && 0 < k <= |xs| && ReadTo(xs[1..], k - 1, z, y, rest)
    requires z.calls == x.calls + Calls(CommandIn(xs[0])) && z.acks == x.acks + Answer(xs[0])
    ensures ReadTo(xs, k, x, y, rest)
  {
    hide CommandIn, Answer, Commands, Answers, Calls;
    Cons(xs[..k]);
    assert xs[..k][0] == xs[0] && xs[..k][1..] == xs[1..][..k - 1];
    CallsSum(CommandIn(xs[0]), Commands(xs[1..][..k - 1]));
  }

  lemma ReadNone(xs: seq<Item>, x: Link)
    requires AllWhole(xs)
    ensures ReadTo(xs, 0, x, x, xs)
  {
    assert xs[..0] == [] && xs[0..] == xs;
    Nothing();
  }

  /** The loop reads exactly the items up to the first that resumes execution, calls the commands of the intact ones
      in order, answers every packet, and leaves the rest. */
  lemma {:induction false} ServeExact(xs: seq<Item>, insns: nat, x: Link)
    requires AllWhole(xs) && !x.execute
    ensures var (y, rest) := Serve(xs, insns, x);
      var k := Stop(xs, insns);
      ReadTo(xs, k, x, y, rest) && y.execute == (k > 0 && ResumingItem(xs[k - 1], insns))
  {
    hide ReadTo, Deliver, ResumingItem, Calls, CommandIn, Answer;
    if xs == [] {
      ReadNone(xs, x);
    } else {
      var k, first := Stop(xs, insns), xs[0];
      var (y, rest) := Serve(xs, insns, x);
      Nothing();
      if first.Ack? {
        AckSilent(first, insns);
        ServeExact(xs[1..], insns, x);
        ReadOneMore(xs, k, x, x, y, rest);
      } else {
        var z := Deliver(first, insns, x);
        DeliverExact(first, insns, x);
        if ResumingItem(first, insns) {
          ReadNone(xs[1..], z);
        } else {
          ServeExact(xs[1..], insns, z);
        }
        ReadOneMore(xs, k, x, z, y, rest);
      }
    }
  }

  // ----- framed commands -----

  function FrameAll(cs: seq<string>): (xs: seq<Item>) {
    if cs == [] then [] else [Framed(cs[0])] + FrameAll(cs[1..])
  }

  /** A list of commands, framed, is a stream of whole packets that carries exactly those commands. */
  lemma {:induction false} FramesCarry(cs: seq<string>)
    requires forall c | c in cs :: '#' !in c && NUL !in c
    ensures AllWhole(FrameAll(cs)) && Commands(FrameAll(cs)) == cs
  {
    hide Framed, Cut, Intact;
    if cs != [] {
      FramesCarry(cs[1..]);
      FrameCarries(cs[0]);
    }
  }

  lemma FrameCarries(c: string)
    requires '#' !in c && NUL !in c
    ensures Whole(Framed(c)) && CommandIn(Framed(c)) == [c]
  {
    hide Cut, Intact;
    FrameIsPacket(c);
    CutWhole(c);
  }

  // ----- the session seen through packets -----

  /** The debugger command a text stands for; register and memory writes are none of the session's commands, nor is a
      breakpoint without a readable address. */
  function AsCommand(c: string): (r: Option<Command>) {
    match Find(DISPATCH, c)
    case None => Some(Inspect)
    case Some(v) => CommandFor(v, c)
  }

  function CommandFor(v: Verb, c: string): (r: Option<Command>) {
    match v
    case Go => Some(Continue)
    case StepForward => Some(StepOne)
    case StepBack => Some(BackStep)
    case SetRegisters => None
    case WriteMem => None
    case AddBreakpoint => if BreakAddr(c).Some? then Some(AddBreak(BreakAddr(c).value)) else None
    case RemBreakpoint => if BreakAddr(c).Some? then Some(RemoveBreak(BreakAddr(c).value)) else None
    case _ => Some(Inspect)
  }

  predicate Plain(xs: seq<Item>)
    requires AllWhole(xs)
  {
    forall k | 0 <= k < |xs| && Accepted(xs[k]) :: AsCommand(Cut(xs[k].data)).Some?
  }

  function Script(xs: seq<Item>): (r: seq<Command>)
    requires AllWhole(xs) && Plain(xs)
  {
    if xs == [] then []
    else if Accepted(xs[0]) then [AsCommand(Cut(xs[0].data)).value] + Script(xs[1..])
    else Script(xs[1..])
  }

  function LinkOf(x: Session, acks: string, calls: seq<Request>): (l: Link) {
    Link(false, x.stepone, x.replay, x.lim, x.breaks, acks, calls)
  }

  /** The log once k more commands have been read at the given count. */
  function Logged(log: seq<nat>, insns: nat, k: nat): (r: seq<nat>)
    decreases k
  {
    if k == 0 then log else Logged(log + [insns], insns, k - 1)
  }

  /** What session x looks like once the link is l, k commands have been read and rest is still to be read. */
  predicate Mirrors(x: Session, r: Progress, l: Link, k: int, rest: seq<Command>) {
    && r.Again? == l.execute && (r.Halted? ==> r.halt == Waiting) && k >= 0
    && r.x == x.(stepone := l.stepone, replay := l.replay, lim := l.lim, breaks := l.breaks, script := rest,
                 log := Logged(x.log, x.cpu.insns, k))
  }

  lemma DeliverRefused(p: Item, x: Session, acks: string, calls: seq<Request>)
    requires Whole(p) && p.Packet? && !Accepted(p)
    ensures var y := Deliver(p, x.cpu.insns, LinkOf(x, acks, calls)); y == LinkOf(x, y.acks, calls)
  {
  }

  /** A handler does to the link what its command does to the session. */
  lemma HandleObeys(v: Verb, c: string, x: Session, acks: string, calls: seq<Request>)
    requires CommandFor(v, c).Some?
    ensures var y, cmd := Handle(v, c, x.cpu.insns, LinkOf(x, acks, calls)), CommandFor(v, c).value;
      y.execute == Ends(cmd, x.cpu.insns) && y == LinkOf(Obeyed(cmd, x), acks, calls).(execute := y.execute)
  {
    hide BreakAddr;
  }

  /** Delivering an accepted packet carries out its command. */
  lemma DeliverObeys(p: Item, x: Session, acks: string, calls: seq<Request>)
    requires Whole(p) && Accepted(p) && AsCommand(Cut(p.data)).Some?
    ensures var y, cmd := Deliver(p, x.cpu.insns, LinkOf(x, acks, calls)), AsCommand(Cut(p.data)).value;
      && y.execute == Ends(cmd, x.cpu.insns) && |y.calls| == |calls| + 1
      && y == LinkOf(Obeyed(cmd, x), y.acks, y.calls).(execute := y.execute)
  {
    hide Find, Cut, Handle, CommandFor, Intact;
    var c := Cut(p.data);
    if Find(DISPATCH, c).Some? {
      HandleObeys(Find(DISPATCH, c).value, c, x, acks + "+", calls + [Request(Find(DISPATCH, c), c)]);
    }
  }

  lemma LoggedOne(log: seq<nat>, insns: nat, k: nat)
    requires k > 0
    ensures Logged(log, insns, k) == Logged(log + [insns], insns, k - 1) && Logged(log, insns, 0) == log
  {
  }

  lemma ObeyedKeeps(c: Command, x: Session)
    ensures var y := Obeyed(c, x);
      y == x.(stepone := y.stepone, replay := y.replay, lim := y.lim, breaks := y.breaks)
  {
  }

  /** The packet loop is the session's command loop: it consumes the same commands and leaves the same state. */
  lemma {:induction false} ServeIsInteract(xs: seq<Item>, x: Session, acks: string, calls: seq<Request>)
    requires AllWhole(xs) && Plain(xs) && x.script == Script(xs)
    ensures var (l, rest) := Serve(xs, x.cpu.insns, LinkOf(x, acks, calls));
      AllWhole(rest) && Plain(rest) && Mirrors(x, Interact(x), l, |l.calls| - |calls|, Script(rest))
    decreases |xs|
  {
    hide Find, Cut, Deliver, AsCommand, Intact, Obeyed, Ends, Logged;
    if xs == [] {
      LoggedOne(x.log, x.cpu.insns, 1);
      return;
    }
    var tail := xs[1..];
    assert forall k | 0 <= k < |tail| :: tail[k] == xs[k + 1];
    if xs[0].Ack? {
      ServeIsInteract(tail, x, acks, calls);
      return;
    }
    var y := Deliver(xs[0], x.cpu.insns, LinkOf(x, acks, calls));
    if !Accepted(xs[0]) {
      DeliverRefused(xs[0], x, acks, calls);
      ServeIsInteract(tail, x, y.acks, calls);
      return;
    }
    var read := x.(script := Script(tail), log := x.log + [x.cpu.insns]);
    assert x.script[0] == AsCommand(Cut(xs[0].data)).value && x.script[1..] == Script(tail);
    var z := Obeyed(x.script[0], read);
    DeliverObeys(xs[0], read, acks, calls);
    ObeyedKeeps(x.script[0], read);
    if y.execute {
      LoggedOne(x.log, x.cpu.insns, 1);
      LoggedOne(x.log + [x.cpu.insns], x.cpu.insns, 1);
    } else {
      ServeIsInteract(tail, z, y.acks, y.calls);
      var k := |Serve(xs, x.cpu.insns, LinkOf(x, acks, calls)).0.calls| - |calls|;
      LoggedOne(x.log, x.cpu.insns, k);
    }
  }
}
