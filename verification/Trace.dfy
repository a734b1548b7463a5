/**
 The binary trace can be read back.

 emulate1 writes the words of each executed instruction with nothing between
 them.  Splitting that stream by the decoder's own length rule gives back the
 instructions executed, one for one: an instruction that was skipped leaves no
 word behind.
 */
module Trace {
  import opened Isa
  import opened Cpu
  import opened Kinds
  import opened DecodeTable
  import opened Steps
  import opened Debugger

  /** The decoder takes a second word after w. */
  predicate IsLong(table: seq<Entry>, w: bv16) {
    match Lookup(table, w)
    case None => false
    case Some(e) => e.imm16
  }

  /** Cut a stream of words into instructions. */
  function Split(table: seq<Entry>, ws: seq<bv16>): (cs: seq<seq<bv16>>) {
    if ws == [] then []
    else if IsLong(table, ws[0]) && |ws| >= 2 then [ws[..2]] + Split(table, ws[2..])
    else [ws[..1]] + Split(table, ws[1..])
  }

  function Flatten(cs: seq<seq<bv16>>): (ws: seq<bv16>) {
    if cs == [] then [] else cs[0] + Flatten(cs[1..])
  }

  /** One instruction's words, by the length rule. */
  predicate IsChunk(table: seq<Entry>, c: seq<bv16>) {
    |c| >= 1 && |c| == if IsLong(table, c[0]) then 2 else 1
  }

  lemma {:induction false} SplitFlatten(table: seq<Entry>, cs: seq<seq<bv16>>)
    requires forall c | c in cs :: IsChunk(table, c)
    ensures Split(table, Flatten(cs)) == cs
  {
    hide IsLong;
    if cs != [] {
      var c, rest := cs[0], Flatten(cs[1..]);
      assert c in cs;
      assert IsChunk(table, c);
      SplitFlatten(table, cs[1..]);
      assert (c + rest)[..|c|] == c && (c + rest)[|c|..] == rest;
    }
  }

  /** What n steps from s write to the trace. */
  function TraceOf(rom: Rom, s: State, n: nat): (ws: seq<bv16>) {
    if n == 0 then []
    else
      match Run(rom, s, n - 1)
      case Ok(u) => TraceOf(rom, s, n - 1) + Traced(rom, u)
      case Abort(_) => TraceOf(rom, s, n - 1)
  }

  /** The instruction that starts at pc, as it lies in flash. */
  function WordsAt(rom: Rom, pc: u32): (c: seq<bv16>)
    requires pc < FLASH_SIZE
  {
    if IsLong(rom.table, rom.flash[pc]) && pc + 1 < FLASH_SIZE then rom.flash[pc..pc + 2] else rom.flash[pc..pc + 1]
  }

  /** The next step of s executes an instruction: one is fetched and its handler does not refuse it.  Should the
      instruction it then skips be unfetchable, it has run all the same. */
  predicate Runs(rom: Rom, s: State) {
    !s.skip && s.pc < FLASH_SIZE && Fetch(rom, s.pc).Ok? && Faults(Fetch(rom, s.pc).value, s.pc22).None?
  }

  /** The instruction the next step of s executes, if it executes one. */
  function Ran(rom: Rom, s: State): (cs: seq<seq<bv16>>) {
    if Runs(rom, s) then [WordsAt(rom, s.pc)] else []
  }

  /** The instructions executed by n steps from s, up to and including a step that aborts. */
  function Executed(rom: Rom, s: State, n: nat): (cs: seq<seq<bv16>>) {
    if n == 0 then []
    else
      match Run(rom, s, n - 1)
      case Ok(u) => Executed(rom, s, n - 1) + Ran(rom, u)
      case Abort(_) => Executed(rom, s, n - 1)
  }

  predicate Chunks(table: seq<Entry>, cs: seq<seq<bv16>>) {
    forall c | c in cs :: IsChunk(table, c)
  }

  lemma FlattenOne(c: seq<bv16>)
    ensures Flatten([c]) == c
  {
    assert [c][1..] == [];
    assert Flatten([]) == [];
  }

  /** What one step traces is the instruction it executes, whether or not it goes on to abort. */
  lemma TracedIsRan(rom: Rom, s: State)
    requires SameRows(rom.table)
    ensures Traced(rom, s) == Flatten(Ran(rom, s)) && Chunks(rom.table, Ran(rom, s))
    ensures !s.skip && Step(rom, s).Ok? ==> Runs(rom, s)
  {
    hide Slot, Row, Decode, Faults, SkipAfter, MemAfter, PcAfter, Lookup, FullWord, WellLaid, Size, Layout, Flatten;
    if Fetch(rom, s.pc).Ok? {
      FetchedSize(rom, s.pc);
    }
    if Runs(rom, s) {
      FlattenOne(WordsAt(rom, s.pc));
    } else {
      FlattenNone();
    }
  }

  lemma FlattenNone()
    ensures Flatten([]) == []
  {
  }

  lemma FetchedSize(rom: Rom, pc: u32)
    requires SameRows(rom.table) && Fetch(rom, pc).Ok?
    ensures pc < FLASH_SIZE
    ensures Size(Fetch(rom, pc).value) == (if IsLong(rom.table, rom.flash[pc]) then 2 else 1)
    ensures IsLong(rom.table, rom.flash[pc]) ==> pc + 1 < FLASH_SIZE
  {
    hide Slot, Row, Decode, Lookup, FullWord, Size, Layout;
    var w := rom.flash[pc];
    LookupIsSlot(rom.table, w);
    var k := Slot(w);
    RowsWellLaid(k);
    DecodeSize(Row(k).code, w, 0);
    if pc + 1 < FLASH_SIZE {
      DecodeSize(Row(k).code, w, FullWord(rom.flash[pc + 1]));
    }
  }

  lemma {:induction false} TraceIsFlat(rom: Rom, s: State, n: nat)
    requires SameRows(rom.table)
    ensures TraceOf(rom, s, n) == Flatten(Executed(rom, s, n)) && Chunks(rom.table, Executed(rom, s, n))
  {
    hide Step, Traced, Ran, IsChunk, SameRows;
    if n > 0 {
      TraceIsFlat(rom, s, n - 1);
      if Run(rom, s, n - 1).Ok? {
        var u := Run(rom, s, n - 1).value;
        TracedIsRan(rom, u);
        FlattenSum(Executed(rom, s, n - 1), Ran(rom, u));
      }
    }
  }

  lemma {:induction false} ExecutedCount(rom: Rom, s: State, n: nat)
    requires SameRows(rom.table) && !s.skip && Run(rom, s, n).Ok?
    ensures |Executed(rom, s, n)| == n
  {
    hide Step, Runs, SameRows;
    if n > 0 {
      ExecutedCount(rom, s, n - 1);
      RunCounts(rom, s, n - 1);
      TracedIsRan(rom, Run(rom, s, n - 1).value);
    }
  }

  /** Splitting the trace of any run, also of one that ends in an abort, gives back exactly the instructions
      executed; as long as nothing aborts there is one per step. */
  lemma TraceParses(rom: Rom, s: State, n: nat)
    requires SameRows(rom.table)
    ensures Split(rom.table, TraceOf(rom, s, n)) == Executed(rom, s, n)
    ensures !s.skip && Run(rom, s, n).Ok? ==> |Executed(rom, s, n)| == n == Run(rom, s, n).value.insns - s.insns
  {
    hide IsChunk, Step, Executed, SameRows;
    TraceIsFlat(rom, s, n);
    SplitFlatten(rom.table, Executed(rom, s, n));
    if !s.skip && Run(rom, s, n).Ok? {
      RunCounts(rom, s, n);
      ExecutedCount(rom, s, n);
    }
  }

  // ----- sessions with a debugger -----

  /** The instruction that one iteration of the emulate loop executes, unless it replays or only restarts. */
  function Outside(setup: Setup, x: Session): (cs: seq<seq<bv16>>) {
    var z := Prompted(setup, x);
    if z.Again? && !z.x.replay then Ran(setup.rom, x.cpu) else []
  }

  /** The instructions executed outside replay in n iterations. */
  function SessionExecuted(setup: Setup, x: Session, n: nat): (cs: seq<seq<bv16>>) {
    if n == 0 then []
    else
      match Loop(setup, x, n - 1)
      case Again(y) => SessionExecuted(setup, x, n - 1) + Outside(setup, y)
      case Halted(_, _) => SessionExecuted(setup, x, n - 1)
  }

  lemma IterationTraces(setup: Setup, x: Session)
    requires SameRows(setup.rom.table) && setup.tracing
    ensures LoopStep(setup, x).x.trace == x.trace + Flatten(Outside(setup, x))
    ensures Chunks(setup.rom.table, Outside(setup, x))
  {
    hide Step, Traced, Ran, IsChunk, Intr, EndReplay, SameRows;
    PromptKeeps(setup, x);
    FlattenNone();
    TracedIsRan(setup.rom, x.cpu);
  }

  lemma {:induction false} SessionIsFlat(setup: Setup, x: Session, n: nat)
    requires SameRows(setup.rom.table) && setup.tracing && x.trace == []
    ensures var cs := SessionExecuted(setup, x, n);
      Loop(setup, x, n).x.trace == Flatten(cs) && Chunks(setup.rom.table, cs)
  {
    hide LoopStep, Outside, IsChunk, SameRows;
    if n > 0 {
      SessionIsFlat(setup, x, n - 1);
      var r := Loop(setup, x, n - 1);
      if r.Again? {
        IterationTraces(setup, r.x);
        FlattenSum(SessionExecuted(setup, x, n - 1), Outside(setup, r.x));
      }
    }
  }

  lemma {:induction false} FlattenSum(a: seq<seq<bv16>>, b: seq<seq<bv16>>)
    ensures Flatten(a + b) == Flatten(a) + Flatten(b)
  {
    if a == [] {
      assert a + b == b;
    } else {
      assert (a + b)[1..] == a[1..] + b;
      FlattenSum(a[1..], b);
    }
  }

  /** Splitting the trace of any session, whatever the debugger asks for and however it ends, gives back exactly the
      instructions executed outside replay. */
  lemma SessionParses(setup: Setup, m: Memory, script: seq<Command>, n: nat)
    requires SameRows(setup.rom.table) && setup.tracing
    ensures var x := Begin(setup, m, script);
      Split(setup.rom.table, Loop(setup, x, n).x.trace) == SessionExecuted(setup, x, n)
  {
    hide IsChunk, Loop, SessionExecuted, SameRows;
    var x := Begin(setup, m, script);
    SessionIsFlat(setup, x, n);
    SplitFlatten(setup.rom.table, SessionExecuted(setup, x, n));
  }
}
