/**
 Two runs of one program from states that differ only in memory.

 A differing byte taints what is made from it.  As long as no tainted byte steers
 the first run, the two go through the same program counters and write the same
 cells, and a byte free of taint is the same in both.  If no differing byte is
 looked at before it is written, the taint is known exactly: it is on the
 differing bytes not written yet, and the runs meet when there are none.
 */
module Lockstep {
  import opened Isa
  import opened Cpu
  import opened Frame
  import opened Reads

  /** The next step of s writes address a. */
  predicate WritesAt(rom: Rom, s: State, a: int) {
    !s.skip && Fetch(rom, s.pc).Ok? && MayWrite(Fetch(rom, s.pc).value, s, a)
  }

  /** The next step of s looks at address a. */
  predicate ReadsAt(rom: Rom, s: State, a: int) {
    !s.skip && Fetch(rom, s.pc).Ok? && MayRead(Fetch(rom, s.pc).value, s, a)
  }

  /** The byte at b steers the next step of s. */
  predicate SteersAt(rom: Rom, s: State, b: int) {
    !s.skip && Fetch(rom, s.pc).Ok? && Steers(Fetch(rom, s.pc).value, s, b)
  }

  /** The byte the next step of s leaves at a is made from the byte at b. */
  predicate DepsAt(rom: Rom, s: State, a: int, b: int) {
    !s.skip && Fetch(rom, s.pc).Ok? && Deps(Fetch(rom, s.pc).value, s, a, b)
  }

  lemma ReadsCoverAt(rom: Rom, s: State, a: int, b: int)
    ensures SteersAt(rom, s, b) ==> ReadsAt(rom, s, b)
    ensures WritesAt(rom, s, a) && DepsAt(rom, s, a, b) ==> ReadsAt(rom, s, b)
  {
    hide Fetch, MayRead, MayWrite, Steers, Deps;
    if SteersAt(rom, s, b) || (WritesAt(rom, s, a) && DepsAt(rom, s, a, b)) {
      ReadsCover(Fetch(rom, s.pc).value, s, a, b);
    }
  }

  /** Nothing but memory tells s from t. */
  predicate Twins(s: State, t: State) {
    t == s.(mem := t.mem)
  }

  /** Both outcomes abort for the same reason, or both states are twins. */
  predicate TwinOutcomes(x: Outcome<State>, y: Outcome<State>) {
    match x
    case Abort(why) => y == Abort(why)
    case Ok(s) => y.Ok? && Twins(s, y.value)
  }

  /** What steers the next step is the same. */
  predicate Steady(rom: Rom, s: State, t: State) {
    forall b | 0 <= b < MEM_SIZE && SteersAt(rom, s, b) :: s.mem[b] == t.mem[b]
  }

  lemma ExecTwins(rom: Rom, i: Insn, s: State, t: State)
    requires Twins(s, t) && SteersAlike(i, s, t)
    ensures Twins(Exec(rom, i, s), Exec(rom, i, t))
  {
    hide SteersAlike, MemAfter, PcAfter, SkipAfter;
    PcAgree(i, s, t);
    SkipAgree(i, s, t);
  }

  /** States that agree on what steers the step step alike. */
  lemma StepTwins(rom: Rom, s: State, t: State)
    requires Twins(s, t) && Steady(rom, s, t)
    ensures TwinOutcomes(Step(rom, s), Step(rom, t))
  {
    hide Fetch, Exec, Faults, SkipAfter, Steers, Wrap, Size;
    if !s.skip && Fetch(rom, s.pc).Ok? {
      var i := Fetch(rom, s.pc).value;
      assert SteersAlike(i, s, t);
      ExecTwins(rom, i, s, t);
      ExecFields(rom, i, s);
      ExecFields(rom, i, t);
    }
  }

  /** The byte at a after a step: kept if not written, and the same in both states if made from the same bytes. */
  lemma StepCell(rom: Rom, s: State, t: State, a: int)
    requires Twins(s, t) && Steady(rom, s, t) && 0 <= a < MEM_SIZE && Step(rom, s).Ok? && Step(rom, t).Ok?
    ensures var u, v := Step(rom, s).value, Step(rom, t).value;
      if WritesAt(rom, s, a) then
        (forall b | 0 <= b < MEM_SIZE && DepsAt(rom, s, a, b) :: s.mem[b] == t.mem[b]) ==> u.mem[a] == v.mem[a]
      else u.mem[a] == s.mem[a] && v.mem[a] == t.mem[a]
  {
    hide Fetch, Faults, SkipAfter, PcAfter, MemAfter, Steers, Deps, MayWrite, Wrap, Size;
    if !s.skip {
      var i := Fetch(rom, s.pc).value;
      assert SteersAlike(i, s, t);
      if WritesAt(rom, s, a) {
        if forall b | 0 <= b < MEM_SIZE && DepsAt(rom, s, a, b) :: s.mem[b] == t.mem[b] {
          assert DepsAlike(i, s, t, a);
          MemAgree(rom, i, s, t, a);
        }
      } else {
        WritesAgree(i, s, t, a);
        MemFrame(rom, i, s, a);
        MemFrame(rom, i, t, a);
      }
    }
  }

  // ----- runs -----

  /** One of the first n steps from s writes address a. */
  predicate Written(rom: Rom, s: State, n: nat, a: int) {
    n > 0 && (Written(rom, s, n - 1, a) || (Run(rom, s, n - 1).Ok? && WritesAt(rom, Run(rom, s, n - 1).value, a)))
  }

  /** After n steps from s, the byte at a may still depend on where t differed from s. */
  ghost predicate Tainted(rom: Rom, s: State, t: State, n: nat, a: int)
    requires 0 <= a < MEM_SIZE
  {
    if n == 0 then s.mem[a] != t.mem[a]
    else
      match Run(rom, s, n - 1)
      case Abort(_) => Tainted(rom, s, t, n - 1, a)
      case Ok(u) =>
        if WritesAt(rom, u, a)
        then exists b :: 0 <= b < MEM_SIZE && DepsAt(rom, u, a, b) && Tainted(rom, s, t, n - 1, b)
        else Tainted(rom, s, t, n - 1, a)
  }

  /** Step k of the run from s is steered by no tainted byte. */
  ghost predicate SteeredClean(rom: Rom, s: State, t: State, k: nat) {
    Run(rom, s, k).Ok? ==>
      forall b | 0 <= b < MEM_SIZE && SteersAt(rom, Run(rom, s, k).value, b) :: !Tainted(rom, s, t, k, b)
  }

  ghost predicate Steadfast(rom: Rom, s: State, t: State, n: nat) {
    forall k: nat | k < n :: SteeredClean(rom, s, t, k)
  }

  /** The byte at a once both runs have made n steps: the same unless tainted, and kept unless written. */
  ghost predicate CellAfter(rom: Rom, s: State, t: State, n: nat, a: int)
    requires 0 <= a < MEM_SIZE && Run(rom, s, n).Ok? && Run(rom, t, n).Ok?
  {
    var u, v := Run(rom, s, n).value, Run(rom, t, n).value;
    && (!Tainted(rom, s, t, n, a) ==> u.mem[a] == v.mem[a])
    && (!Written(rom, s, n, a) ==> u.mem[a] == s.mem[a] && v.mem[a] == t.mem[a])
  }

  lemma StaysSteady(rom: Rom, s: State, t: State, n: nat)
    requires Run(rom, s, n).Ok? && Run(rom, t, n).Ok? && SteeredClean(rom, s, t, n)
    requires forall a | 0 <= a < MEM_SIZE :: CellAfter(rom, s, t, n, a)
    ensures Steady(rom, Run(rom, s, n).value, Run(rom, t, n).value)
  {
    hide Run, SteersAt, Tainted, Written;
    var u, v := Run(rom, s, n).value, Run(rom, t, n).value;
    forall b | 0 <= b < MEM_SIZE && SteersAt(rom, u, b)
      ensures u.mem[b] == v.mem[b]
    {
      assert CellAfter(rom, s, t, n, b);
    }
  }

  lemma CellStep(rom: Rom, s: State, t: State, n: nat, a: int)
    requires 0 <= a < MEM_SIZE && Run(rom, s, n).Ok? && Run(rom, t, n).Ok?
    requires forall b | 0 <= b < MEM_SIZE :: CellAfter(rom, s, t, n, b)
    requires Run(rom, s, n + 1).Ok? && Run(rom, t, n + 1).Ok?
    requires Twins(Run(rom, s, n).value, Run(rom, t, n).value)
    requires Steady(rom, Run(rom, s, n).value, Run(rom, t, n).value)
    ensures CellAfter(rom, s, t, n + 1, a)
  {
    hide Step, WritesAt, Steady, DepsAt;
    var u, v := Run(rom, s, n).value, Run(rom, t, n).value;
    StepCell(rom, u, v, a);
    assert CellAfter(rom, s, t, n, a);
    if WritesAt(rom, u, a) && !Tainted(rom, s, t, n + 1, a) {
      forall b | 0 <= b < MEM_SIZE && DepsAt(rom, u, a, b)
        ensures u.mem[b] == v.mem[b]
      {
        assert CellAfter(rom, s, t, n, b);
      }
    }
  }

  lemma StartCells(rom: Rom, s: State, t: State)
    ensures forall a | 0 <= a < MEM_SIZE :: CellAfter(rom, s, t, 0, a)
  {
    hide Step;
  }

  /** While no tainted byte steers the first run, the two stay in lockstep, and every byte is accounted for. */
  lemma {:induction false} RunTwins(rom: Rom, s: State, t: State, n: nat)
    requires Twins(s, t) && Steadfast(rom, s, t, n)
    ensures TwinOutcomes(Run(rom, s, n), Run(rom, t, n))
    ensures Run(rom, s, n).Ok? ==> forall a | 0 <= a < MEM_SIZE :: CellAfter(rom, s, t, n, a)
  {
    hide Step, CellAfter, SteeredClean, Steady;
    if n == 0 {
      StartCells(rom, s, t);
    } else {
      RunTwins(rom, s, t, n - 1);
      if Run(rom, s, n - 1).Ok? {
        assert SteeredClean(rom, s, t, n - 1);
        StaysSteady(rom, s, t, n - 1);
        StepTwins(rom, Run(rom, s, n - 1).value, Run(rom, t, n - 1).value);
        if Run(rom, s, n).Ok? {
          forall a | 0 <= a < MEM_SIZE
            ensures CellAfter(rom, s, t, n, a)
          {
            CellStep(rom, s, t, n - 1, a);
          }
        }
      }
    }
  }

  lemma SameBytes(m: Memory, n: Memory)
    requires forall a | 0 <= a < MEM_SIZE :: m[a] == n[a]
    ensures m == n
  {
  }

  /** No taint is left after n steps. */
  ghost predicate Clean(rom: Rom, s: State, t: State, n: nat) {
    forall a | 0 <= a < MEM_SIZE :: !Tainted(rom, s, t, n, a)
  }

  /** When no tainted byte steers the run and no taint is left, the two runs have met. */
  lemma CleanMeets(rom: Rom, s: State, t: State, n: nat)
    requires Twins(s, t) && Steadfast(rom, s, t, n) && Clean(rom, s, t, n)
    ensures Run(rom, t, n) == Run(rom, s, n)
  {
    hide Run, Tainted, Written, Steadfast;
    RunTwins(rom, s, t, n);
    if Run(rom, s, n).Ok? {
      var u, v := Run(rom, s, n).value, Run(rom, t, n).value;
      forall a | 0 <= a < MEM_SIZE
        ensures u.mem[a] == v.mem[a]
      {
        assert CellAfter(rom, s, t, n, a);
      }
      SameBytes(u.mem, v.mem);
    }
  }

  // ----- when nothing stale is looked at -----

  /** Step k of the run from s looks at no byte that differs in t and has not been written by then. */
  predicate ReadsFresh(rom: Rom, s: State, t: State, k: nat) {
    Run(rom, s, k).Ok? ==>
      forall a | 0 <= a < MEM_SIZE && ReadsAt(rom, Run(rom, s, k).value, a) && s.mem[a] != t.mem[a] ::
        Written(rom, s, k, a)
  }

  predicate NoStaleRead(rom: Rom, s: State, t: State, n: nat) {
    forall k: nat | k < n :: ReadsFresh(rom, s, t, k)
  }

  /** Then the taint is on the differing bytes that have not been written. */
  lemma {:induction false} StaleTaint(rom: Rom, s: State, t: State, n: nat, a: int)
    requires NoStaleRead(rom, s, t, n) && 0 <= a < MEM_SIZE
    ensures Tainted(rom, s, t, n, a) <==> s.mem[a] != t.mem[a] && !Written(rom, s, n, a)
  {
    hide Step, WritesAt, DepsAt, ReadsAt;
    if n > 0 {
      StaleTaint(rom, s, t, n - 1, a);
      if Run(rom, s, n - 1).Ok? && WritesAt(rom, Run(rom, s, n - 1).value, a) {
        var u := Run(rom, s, n - 1).value;
        assert ReadsFresh(rom, s, t, n - 1);
        forall b | 0 <= b < MEM_SIZE && DepsAt(rom, u, a, b)
          ensures !Tainted(rom, s, t, n - 1, b)
        {
          StaleTaint(rom, s, t, n - 1, b);
          ReadsCoverAt(rom, u, a, b);
        }
      }
    }
  }

  lemma StaleSteadfast(rom: Rom, s: State, t: State, n: nat)
    requires NoStaleRead(rom, s, t, n)
    ensures Steadfast(rom, s, t, n)
  {
    hide Run, SteersAt, ReadsAt, Tainted, Written;
    forall k: nat | k < n
      ensures SteeredClean(rom, s, t, k)
    {
      if Run(rom, s, k).Ok? {
        var u := Run(rom, s, k).value;
        assert ReadsFresh(rom, s, t, k);
        forall b | 0 <= b < MEM_SIZE && SteersAt(rom, u, b)
          ensures !Tainted(rom, s, t, k, b)
        {
          StaleTaint(rom, s, t, k, b);
          ReadsCoverAt(rom, u, b, b);
        }
      }
    }
  }

  /** Every byte in which s and t differ is written by the first n steps. */
  predicate AllWritten(rom: Rom, s: State, t: State, n: nat) {
    forall a | 0 <= a < MEM_SIZE && s.mem[a] != t.mem[a] :: Written(rom, s, n, a)
  }

  lemma CellTells(rom: Rom, s: State, t: State, n: nat, a: int)
    requires 0 <= a < MEM_SIZE && Run(rom, s, n).Ok? && Run(rom, t, n).Ok? && CellAfter(rom, s, t, n, a)
    requires NoStaleRead(rom, s, t, n)
    ensures Run(rom, s, n).value.mem[a] == Run(rom, t, n).value.mem[a]
       <==> (s.mem[a] != t.mem[a] ==> Written(rom, s, n, a))
  {
    hide Run, Written, Tainted, NoStaleRead;
    StaleTaint(rom, s, t, n, a);
  }

  /** Without a stale read, n steps erase the difference exactly when they write every differing byte. */
  lemma ConvergeIff(rom: Rom, s: State, t: State, n: nat)
    requires Twins(s, t) && NoStaleRead(rom, s, t, n) && Run(rom, s, n).Ok?
    ensures Run(rom, t, n).Ok? && (Run(rom, t, n) == Run(rom, s, n) <==> AllWritten(rom, s, t, n))
  {
    hide Run, Written, NoStaleRead, CellAfter, Steadfast;
    StaleSteadfast(rom, s, t, n);
    RunTwins(rom, s, t, n);
    var u, v := Run(rom, s, n).value, Run(rom, t, n).value;
    forall a | 0 <= a < MEM_SIZE
      ensures u.mem[a] == v.mem[a] <==> (s.mem[a] != t.mem[a] ==> Written(rom, s, n, a))
    {
      CellTells(rom, s, t, n, a);
    }
    if AllWritten(rom, s, t, n) {
      SameBytes(u.mem, v.mem);
    }
  }
}
