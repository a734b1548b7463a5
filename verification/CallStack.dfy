/**
 The emulated stack refines a LIFO of return addresses and saved bytes.

 SP, the stack bytes and everything else share one memory.  As long as the stack
 stays between 0x60 and 0xffff, return addresses fit the program counter, and
 the other instructions keep off SP and the live bytes, every RET lands on the
 address its matching call pushed, at any nesting depth and for both widths of
 the program counter.
 */
module CallStack {
  import opened Bytes
  import opened Isa
  import opened Cpu
  import opened Frame

  datatype Item = Return(ra: u32) | Saved(b: byte)

  const STACK_END := 0x60

  // ----- bytes on the stack -----

  /** The bytes bs, pushed in order from address base down, are on the stack and nothing else is. */
  predicate Holds(m: Memory, base: int, bs: seq<byte>) {
    && base <= 0xffff && base - |bs| >= STACK_END - 1
    && Sp(m) == base - |bs|
    && forall k | 0 <= k < |bs| :: m[base - k] == bs[k]
  }

  lemma PushHolds(m: Memory, base: int, bs: seq<byte>, b: byte)
    requires Holds(m, base, bs) && base - |bs| >= STACK_END
    ensures Holds(PushByte(m, b), base, bs + [b])
  {
    SpAfter(m, b);
    forall k | 0 <= k < |bs| + 1 ensures PushByte(m, b)[base - k] == (bs + [b])[k] {
      PushFrame(m, b, base - k);
    }
  }

  lemma PopHolds(m: Memory, base: int, bs: seq<byte>)
    requires Holds(m, base, bs) && bs != []
    ensures PopByte(m) == bs[|bs| - 1] && Holds(PopMem(m), base, bs[..|bs| - 1])
  {
    SpAfter(m, 0);
    forall k | 0 <= k < |bs| ensures PopMem(m)[base - k] == bs[k] {
      PopFrame(m, base - k);
    }
  }

  function AddressBytes(ra: u32, pc22: bool): (bs: seq<byte>)
    ensures |bs| == PcBytes(pc22)
  {
    if pc22 then [ra % 256, ra / 256 % 256, ra / 0x1_0000 % 256] else [ra % 256, ra / 256 % 256]
  }

  predicate Fits(ra: u32, pc22: bool) {
    ra < if pc22 then 0x40_0000 else 0x1_0000
  }

  lemma PushPcHolds(m: Memory, base: int, bs: seq<byte>, pc22: bool, ra: u32)
    requires Holds(m, base, bs) && base - |bs| - PcBytes(pc22) >= STACK_END - 1
    ensures Holds(PushPc(m, pc22, ra), base, bs + AddressBytes(ra, pc22))
  {
    hide PushByte, Holds;
    var b0, b1, b2 := ra % 256, ra / 256 % 256, ra / 0x1_0000 % 256;
    HoldsBounds(m, base, bs);
    PushHolds(m, base, bs, b0);
    PushHolds(PushByte(m, b0), base, bs + [b0], b1);
    assert bs + [b0] + [b1] == bs + [b0, b1];
    if pc22 {
      PushHolds(PushByte(PushByte(m, b0), b1), base, bs + [b0] + [b1], b2);
      assert bs + [b0] + [b1] + [b2] == bs + [b0, b1, b2];
    }
  }

  lemma HoldsBounds(m: Memory, base: int, bs: seq<byte>)
    requires Holds(m, base, bs)
    ensures base <= 0xffff && Sp(m) == base - |bs|
  {
  }

  lemma PopPcHolds(m: Memory, base: int, bs: seq<byte>, pc22: bool, ra: u32)
    requires Holds(m, base, bs + AddressBytes(ra, pc22)) && Fits(ra, pc22)
    ensures PopPc(m, pc22) == ra && Holds(PopPcMem(m, pc22), base, bs)
  {
    hide PopByte, PopMem, Holds;
    var b0, b1, b2 := ra % 256, ra / 256 % 256, ra / 0x1_0000 % 256;
    if pc22 {
      assert (bs + [b0, b1, b2])[..|bs| + 2] == bs + [b0, b1];
      PopHolds(m, base, bs + [b0, b1, b2]);
      assert (bs + [b0, b1])[..|bs| + 1] == bs + [b0];
      PopHolds(PopMem(m), base, bs + [b0, b1]);
      assert (bs + [b0])[..|bs|] == bs;
      PopHolds(PopMem(PopMem(m)), base, bs + [b0]);
    } else {
      assert (bs + [b0, b1])[..|bs| + 1] == bs + [b0];
      PopHolds(m, base, bs + [b0, b1]);
      assert (bs + [b0])[..|bs|] == bs;
      PopHolds(PopMem(m), base, bs + [b0]);
    }
    AddressValue(ra);
  }

  lemma AddressValue(ra: u32)
    ensures ra < 0x1_0000 ==> 256 * (ra / 256 % 256) + ra % 256 == ra
    ensures ra < 0x40_0000 ==> 0x1_0000 * (ra / 0x1_0000 % 256) + 256 * (ra / 256 % 256) + ra % 256 == ra
  {
    assert ra == 256 * (ra / 256) + ra % 256;
    assert ra / 256 == 256 * (ra / 0x1_0000) + ra / 256 % 256;
  }

  // ----- items on the stack -----

  function ItemBytes(it: Item, pc22: bool): (bs: seq<byte>) {
    match it
    case Return(ra) => AddressBytes(ra, pc22)
    case Saved(b) => [b]
  }

  function Flat(items: seq<Item>, pc22: bool): (bs: seq<byte>) {
    if items == [] then []
    else Flat(items[..|items| - 1], pc22) + ItemBytes(items[|items| - 1], pc22)
  }

  lemma FlatSnoc(items: seq<Item>, it: Item, pc22: bool)
    ensures Flat(items + [it], pc22) == Flat(items, pc22) + ItemBytes(it, pc22)
  {
    assert (items + [it])[..|items|] == items;
  }

  /** The machine's stack, from base down, is the list of items. */
  predicate Stacked(s: State, base: int, items: seq<Item>) {
    && Holds(s.mem, base, Flat(items, s.pc22))
    && forall k | 0 <= k < |items| :: items[k].Return? ==> Fits(items[k].ra, s.pc22)
  }

  /** What the instruction does to the list. */
  function Lifo(i: Insn, s: State, items: seq<Item>): (r: seq<Item>) {
    if IsCallInsn(i) then items + [Return(Wrap(s.pc + Size(i)))]
    else if i.Push? then items + [Saved(s.mem[i.d])]
    else if (i.Ret? || i.Pop?) && items != [] then items[..|items| - 1]
    else items
  }

  /** The rules of the game for the next instruction. */
  ghost predicate Disciplined(i: Insn, s: State, base: int, items: seq<Item>) {
    if IsCallInsn(i) then Sp(s.mem) - PcBytes(s.pc22) >= STACK_END - 1 && Fits(Wrap(s.pc + Size(i)), s.pc22)
    else if i.Push? then Sp(s.mem) >= STACK_END
    else if i.Ret? then items != [] && items[|items| - 1].Return?
    else if i.Pop? then items != [] && items[|items| - 1].Saved?
    else forall a | MayWrite(i, s, a) :: !IsSp(a) && !(Sp(s.mem) < a <= base)
  }

  lemma NeutralHolds(rom: Rom, i: Insn, s: State, base: int, bs: seq<byte>)
    requires Holds(s.mem, base, bs)
    requires forall a | MayWrite(i, s, a) :: !IsSp(a) && !(Sp(s.mem) < a <= base)
    ensures Holds(MemAfter(rom, i, s), base, bs)
  {
    hide MemAfter, MayWrite;
    MemFrame(rom, i, s, SP_LO);
    MemFrame(rom, i, s, SP_HI);
    forall k | 0 <= k < |bs| ensures MemAfter(rom, i, s)[base - k] == bs[k] {
      MemFrame(rom, i, s, base - k);
    }
  }

  /** A register write or a flag change does not disturb the stack. */
  lemma LowWriteHolds(m: Memory, base: int, bs: seq<byte>, a: int, b: byte)
    requires Holds(m, base, bs) && 0 <= a < STACK_END && !IsSp(a)
    ensures Holds(m[a := b], base, bs)
  {
  }

  // ----- one step -----

  /** Executing one instruction by the rules keeps machine and list in step, and a RET goes to the top address. */
  lemma ExecLifo(rom: Rom, i: Insn, s: State, base: int, items: seq<Item>)
    requires Stacked(s, base, items) && Disciplined(i, s, base, items)
    ensures Stacked(Exec(rom, i, s), base, Lifo(i, s, items))
    ensures i.Ret? ==> Exec(rom, i, s).pc == items[|items| - 1].ra
    ensures i.Pop? ==> Exec(rom, i, s).mem[i.d] == items[|items| - 1].b
  {
    hide Holds, Flat, MemAfter, PcAfter, SkipAfter, PushPc, PopPc, PopPcMem, Wrap, Size, PushByte, PopMem, PopByte,
         Fits, MayWrite, SetFlags, Flags, Assign, Sp;
    var bs := Flat(items, s.pc22);
    HoldsBounds(s.mem, base, bs);
    if IsCallInsn(i) {
      var ra := Wrap(s.pc + Size(i));
      CallMem(rom, i, s);
      PushPcHolds(s.mem, base, bs, s.pc22, ra);
      FlatSnoc(items, Return(ra), s.pc22);
    } else if i.Push? {
      PushMem(rom, i, s);
      PushHolds(s.mem, base, bs, s.mem[i.d]);
      FlatSnoc(items, Saved(s.mem[i.d]), s.pc22);
    } else if i.Ret? {
      RetLifo(rom, i.reti, s, base, items);
    } else if i.Pop? {
      PopLifo(rom, i.d, s, base, items);
    } else {
      NeutralHolds(rom, i, s, base, bs);
    }
  }

  lemma PushMem(rom: Rom, i: Insn, s: State)
    requires i.Push?
    ensures MemAfter(rom, i, s) == PushByte(s.mem, s.mem[i.d])
  {
    hide PushByte, AluMem;
  }

  lemma RetLifo(rom: Rom, reti: bool, s: State, base: int, items: seq<Item>)
    requires Stacked(s, base, items) && items != [] && items[|items| - 1].Return?
    ensures Holds(MemAfter(rom, Ret(reti), s), base, Flat(items[..|items| - 1], s.pc22))
    ensures PcAfter(Ret(reti), s) == items[|items| - 1].ra
  {
    hide Holds, MemAfter, PcAfter, PopPc, PopPcMem, Flags, Pack, Assign;
    var rest, ra := items[..|items| - 1], items[|items| - 1].ra;
    PopPcHolds(s.mem, base, Flat(rest, s.pc22), s.pc22, ra);
    RetMem(rom, s, reti);
    var m1 := PopPcMem(s.mem, s.pc22);
    LowWriteHolds(m1, base, Flat(rest, s.pc22), SREG, Pack(Assign(Flags(m1), I, true)));
  }

  lemma PopLifo(rom: Rom, d: reg, s: State, base: int, items: seq<Item>)
    requires Stacked(s, base, items) && items != [] && items[|items| - 1].Saved?
    ensures Holds(MemAfter(rom, Pop(d), s), base, Flat(items[..|items| - 1], s.pc22))
    ensures MemAfter(rom, Pop(d), s)[d] == items[|items| - 1].b
  {
    hide Holds, PopMem, PopByte, AluMem;
    var rest, b := items[..|items| - 1], items[|items| - 1].b;
    var bs := Flat(rest, s.pc22);
    assert (bs + [b])[..|bs|] == bs;
    PopHolds(s.mem, base, bs + [b]);
    LowWriteHolds(PopMem(s.mem), base, bs, d, b);
  }

  /** The rules for the next step of state s, which has no pending skip. */
  ghost predicate GoodStep(rom: Rom, s: State, base: int, items: seq<Item>) {
    Step(rom, s).Ok? && Fetch(rom, s.pc).Ok? && Disciplined(Fetch(rom, s.pc).value, s, base, items)
  }

  lemma StepLifo(rom: Rom, s: State, base: int, items: seq<Item>)
    requires !s.skip && Stacked(s, base, items) && GoodStep(rom, s, base, items)
    ensures var i, t := Fetch(rom, s.pc).value, Step(rom, s).value;
      && !t.skip && Stacked(t, base, Lifo(i, s, items))
      && (i.Ret? ==> t.pc == items[|items| - 1].ra)
      && (i.Pop? ==> t.mem[i.d] == items[|items| - 1].b)
  {
    hide Disciplined, Fetch, Faults, MemAfter, PcAfter, Lifo, Wrap, Size, Holds, Flat, Fits, Exec;
    var i := Fetch(rom, s.pc).value;
    ExecLifo(rom, i, s, base, items);
    ExecFields(rom, i, s);
    SkipNotJump(i, s.mem);
  }

  lemma SkipNotJump(i: Insn, m: Memory)
    ensures SkipAfter(i, m) ==> !i.Ret? && !i.Pop?
  {
  }

  // ----- whole runs -----

  /** The list of items after n steps, starting from the given items. */
  ghost function StackAfter(rom: Rom, s: State, items: seq<Item>, n: nat): (r: seq<Item>) {
    if n == 0 then items
    else
      var before := StackAfter(rom, s, items, n - 1);
      match Run(rom, s, n - 1)
      case Abort(_) => before
      case Ok(t) =>
        match Fetch(rom, t.pc)
        case Abort(_) => before
        case Ok(i) => Lifo(i, t, before)
  }

  /** Every one of the first n steps follows the rules. */
  ghost predicate GoodRun(rom: Rom, s: State, base: int, items: seq<Item>, n: nat) {
    forall k: nat | k < n ::
      Run(rom, s, k).Ok? && GoodStep(rom, Run(rom, s, k).value, base, StackAfter(rom, s, items, k))
  }

  /** Machine and list stay in step through any run by the rules. */
  lemma {:induction false} RunLifo(rom: Rom, s: State, base: int, items: seq<Item>, n: nat)
    requires !s.skip && Stacked(s, base, items) && GoodRun(rom, s, base, items, n)
    ensures Run(rom, s, n).Ok?
    ensures var t := Run(rom, s, n).value; !t.skip && Stacked(t, base, StackAfter(rom, s, items, n))
  {
    hide Step, Stacked, Lifo, Fetch, Disciplined;
    if n > 0 {
      RunLifo(rom, s, base, items, n - 1);
      StepLifo(rom, Run(rom, s, n - 1).value, base, StackAfter(rom, s, items, n - 1));
    }
  }

  lemma LifoKeepsPrefix(i: Insn, s: State, items: seq<Item>, p: nat)
    requires p <= |items| && p <= |Lifo(i, s, items)|
    ensures Lifo(i, s, items)[..p] == items[..p]
  {
    hide Wrap, Size;
  }

  lemma StackKeepsPrefix(rom: Rom, s: State, items: seq<Item>, k: nat, p: nat)
    requires k > 0 && p <= |StackAfter(rom, s, items, k)| && p <= |StackAfter(rom, s, items, k - 1)|
    ensures StackAfter(rom, s, items, k)[..p] == StackAfter(rom, s, items, k - 1)[..p]
  {
    hide Lifo, Fetch, Run;
    if Run(rom, s, k - 1).Ok? && Fetch(rom, Run(rom, s, k - 1).value.pc).Ok? {
      var t := Run(rom, s, k - 1).value;
      LifoKeepsPrefix(Fetch(rom, t.pc).value, t, StackAfter(rom, s, items, k - 1), p);
    }
  }

  /** While the list stays longer than it was at step j, what was pushed then stays where it is. */
  lemma {:induction false} Buried(rom: Rom, s: State, items: seq<Item>, j: nat, k: nat)
    requires j < k
    requires forall i: nat | j < i <= k :: |StackAfter(rom, s, items, i)| > |StackAfter(rom, s, items, j)|
    ensures var low := |StackAfter(rom, s, items, j)|;
      StackAfter(rom, s, items, k)[..low + 1] == StackAfter(rom, s, items, j + 1)[..low + 1]
    decreases k - j
  {
    hide StackAfter;
    if k > j + 1 {
      assert |StackAfter(rom, s, items, k)| > |StackAfter(rom, s, items, j)|;
      assert |StackAfter(rom, s, items, k - 1)| > |StackAfter(rom, s, items, j)|;
      Buried(rom, s, items, j, k - 1);
      StackKeepsPrefix(rom, s, items, k, |StackAfter(rom, s, items, j)| + 1);
    }
  }

  /** A call adds its return address to the list; a RET removes the top. */
  lemma StackStep(rom: Rom, s: State, items: seq<Item>, n: nat)
    requires Run(rom, s, n).Ok? && Fetch(rom, Run(rom, s, n).value.pc).Ok?
    ensures var u := Run(rom, s, n).value;
      StackAfter(rom, s, items, n + 1) == Lifo(Fetch(rom, u.pc).value, u, StackAfter(rom, s, items, n))
  {
    hide Lifo, Fetch;
  }

  /** The return that matches a call: the stack has stayed deeper than at the call, and is back to one item more. */
  ghost predicate Matched(rom: Rom, s: State, items: seq<Item>, j: nat, k: nat) {
    && j < k && Run(rom, s, j).Ok? && Run(rom, s, k).Ok?
    && Fetch(rom, Run(rom, s, j).value.pc).Ok? && IsCallInsn(Fetch(rom, Run(rom, s, j).value.pc).value)
    && Fetch(rom, Run(rom, s, k).value.pc).Ok? && Fetch(rom, Run(rom, s, k).value.pc).value.Ret?
    && (forall i: nat | j < i <= k :: |StackAfter(rom, s, items, i)| > |StackAfter(rom, s, items, j)|)
    && |StackAfter(rom, s, items, k)| == |StackAfter(rom, s, items, j)| + 1
  }

  /** Each RET or RETI lands right after the call it matches, with SP as it was before the call. */
  lemma CallReturns(rom: Rom, s: State, base: int, items: seq<Item>, j: nat, k: nat)
    requires !s.skip && Stacked(s, base, items) && GoodRun(rom, s, base, items, k + 1) && Matched(rom, s, items, j, k)
    ensures Run(rom, s, k + 1).Ok?
    ensures var before, after := Run(rom, s, j).value, Run(rom, s, k + 1).value;
      && after.pc == Wrap(before.pc + Size(Fetch(rom, before.pc).value))
      && Sp(after.mem) == Sp(before.mem)
      && StackAfter(rom, s, items, k + 1) == StackAfter(rom, s, items, j)
  {
    hide Step, Fetch, Wrap, Size, Disciplined, Sp, StackAfter, Stacked, GoodStep, Run;
    var u, v, w := Run(rom, s, j).value, Run(rom, s, k).value, Run(rom, s, k + 1);
    var sj, sk := StackAfter(rom, s, items, j), StackAfter(rom, s, items, k);
    RunLifo(rom, s, base, items, j);
    RunLifo(rom, s, base, items, k);
    RunLifo(rom, s, base, items, k + 1);
    StackStep(rom, s, items, j);
    StackStep(rom, s, items, k);
    Buried(rom, s, items, j, k);
    assert |sk| == |sj| + 1 && sk == sk[..|sj| + 1];
    assert sk == sj + [Return(Wrap(u.pc + Size(Fetch(rom, u.pc).value)))];
    StepLifo(rom, v, base, sk);
    RunSucc(rom, s, k);
    RunKeepsModel(rom, s, j);
    RunKeepsModel(rom, s, k + 1);
    StackedSp(u, base, sj);
    StackedSp(w.value, base, sj);
  }

  lemma RunSucc(rom: Rom, s: State, n: nat)
    requires Run(rom, s, n).Ok?
    ensures Run(rom, s, n + 1) == Step(rom, Run(rom, s, n).value)
  {
    hide Step;
  }

  lemma StackedSp(s: State, base: int, items: seq<Item>)
    requires Stacked(s, base, items)
    ensures Sp(s.mem) == base - |Flat(items, s.pc22)|
  {
    hide Sp, Flat;
  }
}
