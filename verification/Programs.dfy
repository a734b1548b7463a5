/**
 Chains as they lie in flash: straight lines of subtractions, comparisons,
 additions or shifts, one register per link.  The states such a program runs
 through are a chain in the sense of `Chains`; what a link stores stays until
 the end, so the final registers hold the whole result, and a branch after the
 line goes where the comparison of the whole numbers sends it.
 */
module Programs {
  import opened Bytes
  import opened Isa
  import opened Cpu
  import opened Frame
  import opened Numbers
  import opened Chains
  import opened DecodeTable
  import opened Words

  // ----- straight lines -----

  predicate IsLink(i: Insn) {
    i.Sub? || i.Add? || i.Shift?
  }

  function LinkD(i: Insn): (d: reg)
    requires IsLink(i)
  {
    i.d
  }

  predicate LinkReads(i: Insn, x: reg)
    requires IsLink(i)
  {
    x == i.d || (!i.Shift? && x == i.r)
  }

  predicate LinkWrites(i: Insn, x: reg)
    requires IsLink(i)
  {
    x == i.d && (i.Sub? ==> i.store)
  }

  /** Link i leaves the registers of link j alone. */
  predicate Clear(i: Insn, j: Insn)
    requires IsLink(i) && IsLink(j)
  {
    LinkWrites(i, LinkD(i)) ==> !LinkReads(j, LinkD(i))
  }

  /** From pc on, flash holds these links, none of which overwrites a register that a later one uses. */
  ghost predicate Line(rom: Rom, pc: u32, links: seq<Insn>) {
    && pc + |links| < FLASH_SIZE
    && (forall k | 0 <= k < |links| :: IsLink(links[k]) && Fetch(rom, pc + k) == Ok(links[k]))
    && (forall j, k | 0 <= j < k < |links| :: Clear(links[j], links[k]))
  }

  lemma LinkStep(rom: Rom, s: State, i: Insn)
    requires !s.skip && s.pc + 1 < FLASH_SIZE && IsLink(i) && Fetch(rom, s.pc) == Ok(i)
    ensures Step(rom, s).Ok?
    ensures var t := Step(rom, s).value;
      t.pc == s.pc + 1 && !t.skip && forall x: reg | !LinkWrites(i, x) :: t.mem[x] == s.mem[x]
  {
    hide Fetch, AluMem, Wrap, AluMayWrite;
    OnlyAluShape(rom, i, s);
    WrapSmall(s.pc + 1);
    forall x: reg | !LinkWrites(i, x)
      ensures AluMem(rom, i, s.mem)[x] == s.mem[x]
    {
      LinkSpares(i, x);
      AluFrame(rom, i, s.mem, x);
    }
  }

  lemma LinkSpares(i: Insn, x: reg)
    requires IsLink(i) && !LinkWrites(i, x)
    ensures !AluMayWrite(i, x)
  {
  }

  /** None of the first k links writes register x. */
  predicate Fresh(links: seq<Insn>, k: nat, x: reg)
    requires k <= |links| && forall j | 0 <= j < |links| :: IsLink(links[j])
  {
    forall j | 0 <= j < k :: !LinkWrites(links[j], x)
  }

  lemma LinksOf(rom: Rom, pc: u32, links: seq<Insn>)
    requires Line(rom, pc, links)
    ensures forall j | 0 <= j < |links| :: IsLink(links[j])
  {
    hide Fetch;
  }

  /** After k links the machine stands at the next one and every register not yet written is as it was. */
  lemma {:induction false} LineRuns(rom: Rom, s: State, links: seq<Insn>, k: nat)
    requires !s.skip && Line(rom, s.pc, links) && k <= |links|
    ensures Run(rom, s, k).Ok? && forall j | 0 <= j < |links| :: IsLink(links[j])
    ensures var t := Run(rom, s, k).value;
      t.pc == s.pc + k && !t.skip && forall x: reg | Fresh(links, k, x) :: t.mem[x] == s.mem[x]
  {
    hide Step, Fetch, IsLink, LinkWrites;
    LinksOf(rom, s.pc, links);
    if k > 0 {
      LineRuns(rom, s, links, k - 1);
      var u := Run(rom, s, k - 1).value;
      assert Fetch(rom, s.pc + (k - 1)) == Ok(links[k - 1]);
      LinkStep(rom, u, links[k - 1]);
      forall x: reg | Fresh(links, k, x)
        ensures Fresh(links, k - 1, x) && !LinkWrites(links[k - 1], x)
      {
      }
    }
  }

  function StateAt(rom: Rom, s: State, k: nat): (t: State) {
    match Run(rom, s, k)
    case Ok(t) => t
    case Abort(_) => s
  }

  /** The states at the links. */
  ghost function Links(rom: Rom, s: State, n: nat): (ss: seq<State>)
    ensures |ss| == n && forall k | 0 <= k < n :: ss[k] == StateAt(rom, s, k)
  {
    seq(n, k requires 0 <= k < n => StateAt(rom, s, k))
  }

  lemma OperandFresh(rom: Rom, pc: u32, links: seq<Insn>, k: nat, x: reg)
    requires Line(rom, pc, links) && k < |links| && LinkReads(links[k], x)
    ensures Fresh(links, k, x)
  {
    hide Fetch;
    forall j | 0 <= j < k
      ensures !LinkWrites(links[j], x)
    {
      assert Clear(links[j], links[k]);
    }
  }

  /** At link k the machine is about to run it, on the operands of the start. */
  lemma LinkState(rom: Rom, s: State, links: seq<Insn>, k: nat)
    requires !s.skip && Line(rom, s.pc, links) && k < |links|
    ensures var t := StateAt(rom, s, k);
      && !t.skip && IsLink(links[k]) && Fetch(rom, t.pc) == Ok(links[k])
      && forall x: reg | LinkReads(links[k], x) :: t.mem[x] == s.mem[x]
  {
    hide Fetch, Run, Fresh, LinkReads, IsLink;
    LinksOf(rom, s.pc, links);
    LineRuns(rom, s, links, k);
    assert Fetch(rom, s.pc + k) == Ok(links[k]);
    forall x: reg | LinkReads(links[k], x)
      ensures StateAt(rom, s, k).mem[x] == s.mem[x]
    {
      OperandFresh(rom, s.pc, links, k, x);
    }
  }

  lemma LineHands(rom: Rom, s: State, links: seq<Insn>, k: nat)
    requires !s.skip && Line(rom, s.pc, links) && k < |links|
    ensures Run(rom, s, k + 1).Ok? && StateAt(rom, s, k + 1) == After(rom, StateAt(rom, s, k))
  {
    hide Step, Line;
    LineOk(rom, s, links, k);
    LineOk(rom, s, links, k + 1);
  }

  lemma LineOk(rom: Rom, s: State, links: seq<Insn>, k: nat)
    requires !s.skip && Line(rom, s.pc, links) && k <= |links|
    ensures Run(rom, s, k).Ok? && Run(rom, s, k).value.pc == s.pc + k && !Run(rom, s, k).value.skip
  {
    hide Run, Line;
    LineRuns(rom, s, links, k);
  }

  /** What link j stores stays until the end. */
  lemma {:induction false} DigitStays(rom: Rom, s: State, links: seq<Insn>, j: nat, k: nat)
    requires !s.skip && Line(rom, s.pc, links) && j < k <= |links|
    requires IsLink(links[j]) && LinkWrites(links[j], LinkD(links[j]))
    ensures StateAt(rom, s, k).mem[LinkD(links[j])] == After(rom, StateAt(rom, s, j)).mem[LinkD(links[j])]
    decreases k
  {
    hide Step, Fetch, IsLink, LinkWrites, LinkD, LinkReads;
    if j + 1 == k {
      LineHands(rom, s, links, j);
    } else {
      DigitStays(rom, s, links, j, k - 1);
      LineRuns(rom, s, links, k - 1);
      LineOk(rom, s, links, k);
      assert Fetch(rom, s.pc + (k - 1)) == Ok(links[k - 1]) && Clear(links[j], links[k - 1]);
      WritesRead(links[k - 1], LinkD(links[j]));
      LinkStep(rom, Run(rom, s, k - 1).value, links[k - 1]);
    }
  }

  lemma WritesRead(i: Insn, x: reg)
    requires IsLink(i)
    ensures LinkWrites(i, x) ==> LinkReads(i, x)
  {
  }

  function Contents(m: Memory, rs: seq<reg>): (bs: seq<byte>)
    ensures |bs| == |rs| && forall k | 0 <= k < |rs| :: bs[k] == m[rs[k]]
  {
    seq(|rs|, k requires 0 <= k < |rs| => m[rs[k]])
  }

  // ----- subtraction and comparison -----

  function SubLine(ds: seq<reg>, rs: seq<reg>, store: bool): (links: seq<Insn>)
    requires |ds| == |rs|
    ensures |links| == |ds| && forall k | 0 <= k < |ds| :: links[k] == Sub(ds[k], rs[k], k > 0, store)
  {
    seq(|ds|, k requires 0 <= k < |ds| => Sub(ds[k], rs[k], k > 0, store))
  }

  ghost predicate SubCode(rom: Rom, pc: u32, ds: seq<reg>, rs: seq<reg>, store: bool) {
    |ds| == |rs| && Line(rom, pc, SubLine(ds, rs, store))
  }

  lemma LinkIsSub(rom: Rom, s: State, ds: seq<reg>, rs: seq<reg>, store: bool, k: nat)
    requires !s.skip && SubCode(rom, s.pc, ds, rs, store) && k < |ds|
    ensures IsSub(rom, StateAt(rom, s, k), s.mem[ds[k]], s.mem[rs[k]], k > 0)
  {
    hide Fetch, StateAt, Line;
    LinkState(rom, s, SubLine(ds, rs, store), k);
  }

  /** A straight line of subtractions runs as a chain on the registers' contents. */
  lemma CodeIsChain(rom: Rom, s: State, ds: seq<reg>, rs: seq<reg>, store: bool)
    requires !s.skip && SubCode(rom, s.pc, ds, rs, store)
    ensures SubChain(rom, Links(rom, s, |ds|), Contents(s.mem, ds), Contents(s.mem, rs))
  {
    hide Line, IsSub, StateAt, After, Run, Handed;
    var n := |ds|;
    var ss := Links(rom, s, n);
    forall k | 0 <= k < n
      ensures IsSub(rom, ss[k], Contents(s.mem, ds)[k], Contents(s.mem, rs)[k], k > 0)
    {
      LinkIsSub(rom, s, ds, rs, store, k);
    }
    forall k | 0 < k < n
      ensures Handed(rom, ss[k - 1], ss[k], C) && Handed(rom, ss[k - 1], ss[k], Z)
    {
      LineHands(rom, s, SubLine(ds, rs, store), k - 1);
      HandedOn(rom, ss[k - 1], ss[k], C);
      HandedOn(rom, ss[k - 1], ss[k], Z);
    }
  }

  lemma HandedOn(rom: Rom, s: State, t: State, f: Bits)
    requires t == After(rom, s)
    ensures Handed(rom, s, t, f)
  {
    hide After, Flag;
  }

  lemma AfterIs(rom: Rom, u: State)
    requires Step(rom, u).Ok?
    ensures After(rom, u) == Step(rom, u).value
  {
    hide Step;
  }

  /** The state at the end of the line, as the last link left it. */
  lemma CodeEnds(rom: Rom, s: State, ds: seq<reg>, rs: seq<reg>, store: bool)
    requires !s.skip && SubCode(rom, s.pc, ds, rs, store) && ds != []
    ensures var n := |ds|;
      && Run(rom, s, n).Ok? && Run(rom, s, n).value.pc == s.pc + n && !Run(rom, s, n).value.skip
      && Run(rom, s, n).value == After(rom, Links(rom, s, n)[n - 1])
  {
    hide Line, Run, After;
    var n := |ds|;
    LineOk(rom, s, SubLine(ds, rs, store), n);
    LineHands(rom, s, SubLine(ds, rs, store), n - 1);
  }

  /** CP/CPC or SUB/SBC on n registers and a branch on C or S, from any state: after n + 1 steps the program counter
      is past the branch or at its target, as the comparison of the n-byte numbers in the registers decides. */
  lemma CompareProgram(rom: Rom, s: State, ds: seq<reg>, rs: seq<reg>, store: bool, signed: bool, value: bool,
                       offset: int)
    requires !s.skip && ds != [] && SubCode(rom, s.pc, ds, rs, store)
    requires Fetch(rom, s.pc + |ds|) == Ok(Branch(if signed then 4 else 0, value, offset))
    ensures var a, b := Contents(s.mem, ds), Contents(s.mem, rs);
      var less := if signed then SignedValue(a) < SignedValue(b) else Value(a) < Value(b);
      var r := Run(rom, s, |ds| + 1);
      r.Ok? && r.value.pc == Wrap(s.pc + |ds| + 1 + if less == value then offset else 0)
  {
    hide Fetch, Step, SubCode, SubChain, After, Value, SignedValue, Contents, Wrap, Handed;
    var n := |ds|;
    var ss := Links(rom, s, n);
    CodeIsChain(rom, s, ds, rs, store);
    CodeEnds(rom, s, ds, rs, store);
    var u := Run(rom, s, n).value;
    HandedOn(rom, ss[n - 1], u, if signed then S else C);
    CompareAndBranch(rom, ss, Contents(s.mem, ds), Contents(s.mem, rs), u, signed, value, offset);
    AfterIs(rom, u);
  }

  /** The same with BREQ or BRNE: the program counter is where equality of the n-byte numbers sends it exactly when Z
      was set at the start or the numbers differ. */
  lemma EqualProgramIff(rom: Rom, s: State, ds: seq<reg>, rs: seq<reg>, store: bool, value: bool, offset: int)
    requires !s.skip && ds != [] && SubCode(rom, s.pc, ds, rs, store) && -64 <= offset < 64 && offset != 0
    requires Fetch(rom, s.pc + |ds|) == Ok(Branch(1, value, offset))
    ensures var a, b := Contents(s.mem, ds), Contents(s.mem, rs);
      var r := Run(rom, s, |ds| + 1);
      && r.Ok?
      && r.value.pc == Wrap(s.pc + |ds| + 1 + if (Flag(s, Z) && Value(a) == Value(b)) == value then offset else 0)
      && (r.value.pc == Wrap(s.pc + |ds| + 1 + if (Value(a) == Value(b)) == value then offset else 0)
          <==> Flag(s, Z) || Value(a) != Value(b))
  {
    hide Fetch, Step, SubCode, SubChain, After, Value, Contents, Wrap, Handed, Flag;
    var n := |ds|;
    var ss := Links(rom, s, n);
    CodeIsChain(rom, s, ds, rs, store);
    CodeEnds(rom, s, ds, rs, store);
    var u := Run(rom, s, n).value;
    HandedOn(rom, ss[n - 1], u, Z);
    EqualAndBranch(rom, ss, Contents(s.mem, ds), Contents(s.mem, rs), u, value, offset);
    EqualDecidedIff(rom, ss, Contents(s.mem, ds), Contents(s.mem, rs), u, value, offset);
    AfterIs(rom, u);
    assert ss[0] == s by {
      FirstLink(rom, s, n);
    }
  }

  lemma FirstLink(rom: Rom, s: State, n: nat)
    requires n > 0
    ensures Links(rom, s, n)[0] == s
  {
    hide Step;
    assert Run(rom, s, 0) == Ok(s);
  }

  /** CP r0,r0 and BREQ with Z clear fall through, although r0 equals itself. */
  lemma EqualMissed(rom: Rom, s: State)
    requires SameRows(rom.table) && !s.skip && s.pc + 2 < FLASH_SIZE && !Flag(s, Z)
    requires rom.flash[s.pc] == CP_R0_R0 && rom.flash[s.pc + 1] == BREQ_1
    ensures Run(rom, s, 2).Ok? && Run(rom, s, 2).value.pc == s.pc + 2
  {
    hide Fetch, Run, Value, Wrap, SameRows;
    FetchCp(rom, s.pc);
    FetchBreq(rom, s.pc + 1);
    assert s.pc + 0 == s.pc;
    WrapSmall(s.pc + 2);
    EqualProgramIff(rom, s, [0], [0], false, true, 1);
  }

  lemma SubDigitStored(rom: Rom, s: State, ds: seq<reg>, rs: seq<reg>, j: nat)
    requires !s.skip && SubCode(rom, s.pc, ds, rs, true) && j < |ds|
    ensures StateAt(rom, s, |ds|).mem[ds[j]]
         == SubDigits(Links(rom, s, |ds|), Contents(s.mem, ds), Contents(s.mem, rs))[j]
  {
    hide Run, SubDigits, SubChain, Fetch, After, Line, StateAt;
    var links, ss := SubLine(ds, rs, true), Links(rom, s, |ds|);
    CodeIsChain(rom, s, ds, rs, true);
    LinkState(rom, s, links, j);
    DigitStays(rom, s, links, j, |ds|);
    SubStored(rom, ss, Contents(s.mem, ds), Contents(s.mem, rs), j);
  }

  /** A straight line of SUB and SBC leaves the n-byte difference in its registers. */
  lemma SubtractProgram(rom: Rom, s: State, ds: seq<reg>, rs: seq<reg>)
    requires !s.skip && ds != [] && SubCode(rom, s.pc, ds, rs, true)
    ensures var a, b, n := Contents(s.mem, ds), Contents(s.mem, rs), |ds|;
      var r := Run(rom, s, n);
      r.Ok? && Value(Contents(r.value.mem, ds)) == Value(a) - Value(b) + if Value(a) < Value(b) then Power(n) else 0
  {
    hide Fetch, Step, Line, SubChain, After, Value, Power, SubDigits, Run;
    var n := |ds|;
    var ss, a, b := Links(rom, s, n), Contents(s.mem, ds), Contents(s.mem, rs);
    CodeIsChain(rom, s, ds, rs, true);
    CodeEnds(rom, s, ds, rs, true);
    SubChainValue(rom, ss, a, b);
    forall j | 0 <= j < n
      ensures StateAt(rom, s, n).mem[ds[j]] == SubDigits(ss, a, b)[j]
    {
      SubDigitStored(rom, s, ds, rs, j);
    }
    assert Contents(Run(rom, s, n).value.mem, ds) == SubDigits(ss, a, b);
  }

  // ----- addition -----

  lemma {:induction false} LinkByteAt(rom: Rom, ss: seq<State>, k: nat)
    requires k < |ss|
    ensures LinkBytes(rom, ss)[k] == After(rom, ss[k]).mem[Dest(rom, ss[k])]
  {
    hide After, Dest;
    var n := |ss| - 1;
    if k < n {
      LinkByteAt(rom, ss[..n], k);
      assert ss[..n][k] == ss[k];
    }
  }

  /** The final registers of a line of storing links are the bytes its links left. */
  lemma FinalRegisters(rom: Rom, s: State, links: seq<Insn>, ds: seq<reg>)
    requires !s.skip && Line(rom, s.pc, links) && |links| == |ds|
    requires forall k | 0 <= k < |ds| :: (links[k].Add? || links[k].Shift?) && links[k].d == ds[k]
    ensures Run(rom, s, |ds|).Ok?
    ensures Contents(Run(rom, s, |ds|).value.mem, ds) == LinkBytes(rom, Links(rom, s, |ds|))
  {
    hide Run, Fetch, After, Line, LinkBytes, StateAt;
    var n := |ds|;
    var ss := Links(rom, s, n);
    LineOk(rom, s, links, n);
    forall j | 0 <= j < n
      ensures Run(rom, s, n).value.mem[ds[j]] == LinkBytes(rom, ss)[j]
    {
      LinkState(rom, s, links, j);
      DigitStays(rom, s, links, j, n);
      LinkByteAt(rom, ss, j);
      StateAtOk(rom, s, n);
    }
  }

  lemma StateAtOk(rom: Rom, s: State, n: nat)
    requires Run(rom, s, n).Ok?
    ensures StateAt(rom, s, n) == Run(rom, s, n).value
  {
    hide Run;
  }

  function AddLine(ds: seq<reg>, rs: seq<reg>): (links: seq<Insn>)
    requires |ds| == |rs|
    ensures |links| == |ds| && forall k | 0 <= k < |ds| :: links[k] == Add(ds[k], rs[k], k > 0)
  {
    seq(|ds|, k requires 0 <= k < |ds| => Add(ds[k], rs[k], k > 0))
  }

  ghost predicate AddCode(rom: Rom, pc: u32, ds: seq<reg>, rs: seq<reg>) {
    |ds| == |rs| && Line(rom, pc, AddLine(ds, rs))
  }

  lemma LinkIsAdd(rom: Rom, s: State, ds: seq<reg>, rs: seq<reg>, k: nat)
    requires !s.skip && AddCode(rom, s.pc, ds, rs) && k < |ds|
    ensures IsAdd(rom, StateAt(rom, s, k), s.mem[ds[k]], s.mem[rs[k]], k > 0)
  {
    hide Fetch, StateAt, Line;
    LinkState(rom, s, AddLine(ds, rs), k);
  }

  lemma AddCodeIsChain(rom: Rom, s: State, ds: seq<reg>, rs: seq<reg>)
    requires !s.skip && AddCode(rom, s.pc, ds, rs)
    ensures AddChain(rom, Links(rom, s, |ds|), Contents(s.mem, ds), Contents(s.mem, rs))
  {
    hide Line, StateAt, After, Run, IsAdd, Handed;
    var n := |ds|;
    var ss := Links(rom, s, n);
    forall k | 0 <= k < n
      ensures IsAdd(rom, ss[k], Contents(s.mem, ds)[k], Contents(s.mem, rs)[k], k > 0)
    {
      LinkIsAdd(rom, s, ds, rs, k);
    }
    forall k | 0 < k < n
      ensures Handed(rom, ss[k - 1], ss[k], C)
    {
      LineHands(rom, s, AddLine(ds, rs), k - 1);
      HandedOn(rom, ss[k - 1], ss[k], C);
    }
  }

  lemma LineEnds(rom: Rom, s: State, links: seq<Insn>)
    requires !s.skip && Line(rom, s.pc, links) && links != []
    ensures var n := |links|; Run(rom, s, n).Ok? && Run(rom, s, n).value == After(rom, Links(rom, s, n)[n - 1])
  {
    hide Line, Run, After;
    LineOk(rom, s, links, |links|);
    LineHands(rom, s, links, |links| - 1);
  }

  /** A straight line of ADD and ADC leaves the n-byte sum in its registers and the carry, overflow and sign of the
      whole numbers in C, V and S. */
  lemma AddProgram(rom: Rom, s: State, ds: seq<reg>, rs: seq<reg>)
    requires !s.skip && ds != [] && AddCode(rom, s.pc, ds, rs)
    ensures var a, b, n := Contents(s.mem, ds), Contents(s.mem, rs), |ds|;
      var r, half := Run(rom, s, n), 128 * Power(n - 1);
      && r.Ok?
      && Flag(r.value, C) == (Value(a) + Value(b) >= Power(n))
      && Value(Contents(r.value.mem, ds)) == Value(a) + Value(b) - (if Flag(r.value, C) then Power(n) else 0)
      && Flag(r.value, V) == !(-half <= SignedValue(a) + SignedValue(b) < half)
      && Flag(r.value, S) == (SignedValue(a) + SignedValue(b) < 0)
      && Flag(r.value, Z) == (Top(Contents(r.value.mem, ds)) == 0)
  {
    hide Fetch, Step, Line, AddChain, After, Value, SignedValue, Power, LinkBytes, Run, Flag, Contents;
    var n := |ds|;
    var ss, a, b := Links(rom, s, n), Contents(s.mem, ds), Contents(s.mem, rs);
    AddCodeIsChain(rom, s, ds, rs);
    LineEnds(rom, s, AddLine(ds, rs));
    AddChainValue(rom, ss, a, b);
    AddChainFlags(rom, ss, a, b);
    FinalRegisters(rom, s, AddLine(ds, rs), ds);
  }

  // ----- shifting right -----

  function ShiftLine(op: ShiftOp, ds: seq<reg>): (links: seq<Insn>)
    ensures |links| == |ds| && forall k | 0 <= k < |ds| :: links[k] == Shift(if k == 0 then op else Ror, ds[k])
  {
    seq(|ds|, k requires 0 <= k < |ds| => Shift(if k == 0 then op else Ror, ds[k]))
  }

  lemma LinkIsShift(rom: Rom, s: State, op: ShiftOp, ds: seq<reg>, k: nat)
    requires !s.skip && Line(rom, s.pc, ShiftLine(op, ds)) && k < |ds|
    ensures IsShift(rom, StateAt(rom, s, k), if k == 0 then op else Ror, s.mem[ds[k]])
  {
    hide Fetch, StateAt, Line;
    LinkState(rom, s, ShiftLine(op, ds), k);
  }

  lemma ShiftCodeIsChain(rom: Rom, s: State, op: ShiftOp, ds: seq<reg>)
    requires !s.skip && !op.Ror? && Line(rom, s.pc, ShiftLine(op, ds))
    ensures ShiftChain(rom, Links(rom, s, |ds|), op, Contents(s.mem, ds))
  {
    hide Line, StateAt, After, Run, IsShift, Handed;
    var n := |ds|;
    var ss := Links(rom, s, n);
    forall k | 0 <= k < n
      ensures IsShift(rom, ss[k], if k == 0 then op else Ror, Contents(s.mem, ds)[k])
    {
      LinkIsShift(rom, s, op, ds, k);
    }
    forall k | 0 < k < n
      ensures Handed(rom, ss[k - 1], ss[k], C)
    {
      LineHands(rom, s, ShiftLine(op, ds), k - 1);
      HandedOn(rom, ss[k - 1], ss[k], C);
    }
  }

  /** LSR or ASR on the top register and ROR on the others, most significant first, halve the n-byte number in place,
      rounding down, and leave the bit shifted out in C and S. */
  lemma ShiftProgram(rom: Rom, s: State, op: ShiftOp, ds: seq<reg>)
    requires !s.skip && ds != [] && !op.Ror? && Line(rom, s.pc, ShiftLine(op, ds))
    ensures var x, n := BigValue(Contents(s.mem, ds), op == Asr), |ds|;
      var r := Run(rom, s, n);
      && r.Ok?
      && BigValue(Contents(r.value.mem, ds), op == Asr) == x / 2
      && Flag(r.value, C) == (x % 2 == 1) && Flag(r.value, S) == Flag(r.value, C)
  {
    hide Fetch, Step, Line, ShiftChain, After, BigValue, LinkBytes, Run, Flag, Contents;
    var n := |ds|;
    ShiftCodeIsChain(rom, s, op, ds);
    LineEnds(rom, s, ShiftLine(op, ds));
    ShiftChainValue(rom, Links(rom, s, n), op, Contents(s.mem, ds));
    FinalRegisters(rom, s, ShiftLine(op, ds), ds);
  }
}
