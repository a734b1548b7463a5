/**
 What one call of emulate1 and any run of them keep: the instruction count, the
 skip flag, when a step aborts, and independence from the order of the decode
 table.
 */
module Steps {
  import opened Bytes
  import opened Isa
  import opened Cpu
  import opened DecodeTable

  // ----- counting and skipping -----

  /** A step from a state with no pending skip counts one instruction and leaves no skip pending. */
  lemma StepCounts(rom: Rom, s: State)
    requires !s.skip && Step(rom, s).Ok?
    ensures var t := Step(rom, s).value; t.insns == s.insns + 1 && !t.skip
  {
    hide Fetch, Faults, MemAfter, PcAfter, SkipAfter, Wrap, Size;
  }

  /** Every run that starts with no pending skip, such as one from init. */
  lemma {:induction false} RunCounts(rom: Rom, s: State, n: nat)
    requires !s.skip && Run(rom, s, n).Ok?
    ensures var t := Run(rom, s, n).value; t.insns == s.insns + n && !t.skip
  {
    hide Step;
    if n > 0 {
      RunCounts(rom, s, n - 1);
      StepCounts(rom, Run(rom, s, n - 1).value);
    }
  }

  /** A skip instruction changes no memory, and a taken skip passes over one whole instruction. */
  lemma SkipMoves(rom: Rom, s: State)
    requires !s.skip && Fetch(rom, s.pc).Ok? && IsSkipInsn(Fetch(rom, s.pc).value) && Step(rom, s).Ok?
    ensures var t, i := Step(rom, s).value, Fetch(rom, s.pc).value;
      && t.mem == s.mem
      && (!SkipAfter(i, s.mem) ==> t.pc == Wrap(s.pc + 1))
      && (SkipAfter(i, s.mem) ==>
            var next := Fetch(rom, Wrap(s.pc + 1));
            next.Ok? && t.pc == Wrap(s.pc + 1 + Size(next.value)))
  {
    hide Fetch, Wrap, AluMem;
    var i := Fetch(rom, s.pc).value;
    SkipShape(rom, i, s);
    var next := Fetch(rom, Wrap(s.pc + 1));
    if SkipAfter(i, s.mem) {
      WrapAdd(s.pc + 1, Size(next.value));
    }
  }

  // ----- when a step aborts -----

  /** No instruction can be fetched at pc, read off the raw words of flash. */
  predicate CannotFetch(flash: Flash, pc: u32) {
    || pc >= FLASH_SIZE
    || Slot(flash[pc]) >= ROWS
    || (Row(Slot(flash[pc])).imm16 && pc + 1 >= FLASH_SIZE)
  }

  lemma FetchFailsIff(rom: Rom, pc: u32)
    requires SameRows(rom.table)
    ensures Fetch(rom, pc).Abort? <==> CannotFetch(rom.flash, pc)
  {
    hide Slot, Row, Decode, FullWord, Lookup;
    if pc < FLASH_SIZE {
      LookupIsSlot(rom.table, rom.flash[pc]);
    }
  }

  // ----- the order of the table -----

  lemma FetchPermuted(rom: Rom, t: seq<Entry>, pc: u32)
    requires SameRows(rom.table) && SameRows(t)
    ensures Fetch(rom.(table := t), pc) == Fetch(rom, pc)
  {
    hide Slot, Row, Decode, FullWord, Lookup;
    if pc < FLASH_SIZE {
      LookupIsSlot(rom.table, rom.flash[pc]);
      LookupIsSlot(t, rom.flash[pc]);
    }
  }

  lemma AluIgnoresTable(rom: Rom, t: seq<Entry>, i: Insn, m: Memory)
    ensures AluMem(rom.(table := t), i, m) == AluMem(rom, i, m)
  {
    hide AddMem, SubMem, StepMem, LogicMem, ShiftMem, WideMem, MulMem, SetFlags, Flags, Pack, Unpack, Assign,
         Has, WordAt, PutWord;
  }

  lemma ExecIgnoresTable(rom: Rom, t: seq<Entry>, i: Insn, s: State)
    ensures Exec(rom.(table := t), i, s) == Exec(rom, i, s)
  {
    hide PcAfter, SkipAfter, LoadStore, AluMem, PushPc, PopPcMem, PopMem, PushByte, WordAt, PutWord, LpmAddr;
    AluIgnoresTable(rom, t, i, s.mem);
  }

  lemma StepPermuted(rom: Rom, t: seq<Entry>, s: State)
    requires SameRows(rom.table) && SameRows(t)
    ensures Step(rom.(table := t), s) == Step(rom, s)
  {
    hide Fetch, Faults, Exec, SkipAfter, Size, Wrap;
    FetchPermuted(rom, t, s.pc);
    if Fetch(rom, s.pc).Ok? {
      var i := Fetch(rom, s.pc).value;
      ExecIgnoresTable(rom, t, i, s);
      FetchPermuted(rom, t, Exec(rom, i, s).pc);
    }
  }

  /** Any permutation of the decode table gives the same run from every state. */
  lemma {:induction false} RunPermuted(rom: Rom, t: seq<Entry>, s: State, n: nat)
    requires rom.table == TABLE && multiset(t) == multiset(TABLE)
    ensures Run(rom.(table := t), s, n) == Run(rom, s, n)
  {
    hide Step, Row;
    TableRows();
    PermutedRows(t);
    if n > 0 {
      RunPermuted(rom, t, s, n - 1);
      if Run(rom, s, n - 1).Ok? {
        StepPermuted(rom, t, Run(rom, s, n - 1).value);
      }
    }
  }
}
