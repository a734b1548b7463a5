/**
 Post-increment stores and pre-decrement loads form a stack of bytes.

 n stores through X+, Y+ or Z+ followed by n loads through the same pointer with
 pre-decrement give the bytes back in reverse order and restore the pointer, in
 all three memory models, carry and borrow into the RAMP byte and wrap-around
 included.  Any code may run in between that keeps off the pointer and the
 buffer.
 */
module Pointers {
  import opened Bytes
  import opened Isa
  import opened Cpu
  import opened Chains

  /** How many addresses the memory model can tell apart. */
  function Space(s: State): (n: nat) {
    if s.max256b then 0x100 else if s.max64k then 0x1_0000 else MEM_SIZE
  }

  /** The address i places after base. */
  function Cell(s: State, base: nat, i: nat): (a: nat)
    ensures a < MEM_SIZE
  {
    Clip(base + i, s.max64k, s.max256b)
  }

  /** The address the pointer stands at. */
  function At(s: State, p: Pointer): (a: nat)
    ensures a < MEM_SIZE
  {
    Clip(PointerAt(s.mem, p, s.max64k), s.max64k, s.max256b)
  }

  predicate IsPointerCell(p: Pointer, a: int) {
    a == PairReg(p) || a == PairReg(p) + 1 || a == RampReg(p)
  }

  predicate SameModel(s: State, t: State) {
    s.max64k == t.max64k && s.max256b == t.max256b
  }

  /** The cells of the pointer that its updates do not write: the high byte in the 256-byte model, RAMP below 24
      bits. */
  predicate SameRest(s: State, t: State, p: Pointer) {
    && (s.max256b ==> t.mem[PairReg(p) + 1] == s.mem[PairReg(p) + 1])
    && (s.max256b || s.max64k ==> t.mem[RampReg(p)] == s.mem[RampReg(p)])
  }

  lemma CellNext(s: State, base: nat, i: nat, a: nat)
    requires a == Cell(s, base, i)
    ensures Clip(a + 1, s.max64k, s.max256b) == Cell(s, base, i + 1)
  {
    NextMod(base + i, if s.max256b then 0x100 else if s.max64k then 0x1_0000 else MEM_SIZE);
  }

  lemma CellsDiffer(s: State, base: nat, i: nat, j: nat)
    requires i < j < Space(s)
    ensures Cell(s, base, i) != Cell(s, base, j)
  {
    ApartMod(base + i, base + j, Space(s));
  }

  lemma WordPut(m: Memory, r: reg, x: word)
    requires r < 31
    ensures WordAt(PutWord(m, r, x), r) == x
  {
  }

  lemma FullAddress(a: nat)
    requires a <= MEM_SIZE
    ensures (a % 0x1_0000 + 0x1_0000 * (a / 0x1_0000 % 256)) % MEM_SIZE == a % MEM_SIZE
  {
  }

  lemma PutPointerLands(m: Memory, p: Pointer, a: nat, max64k: bool, max256b: bool)
    requires a <= MEM_SIZE
    ensures var r := PutPointer(m, p, a, max64k, max256b);
      Clip(PointerAt(r, p, max64k), max64k, max256b) == Clip(a, max64k, max256b)
  {
    hide PutWord, WordAt;
    var r, q := PairReg(p), RampReg(p);
    if max256b {
      var m1 := m[r := a % 256];
      WordCells(m1, r);
      LowByte(m1[r], m1[r + 1], m1[q], max64k);
    } else {
      var m1 := PutWord(m, r, a % 0x1_0000);
      WordPut(m, r, a % 0x1_0000);
      if !max64k {
        WordCells(m1, r);
        WordCells(m1[q := a / 0x1_0000 % 256], r);
        FullAddress(a);
      }
    }
  }

  lemma WordCells(m: Memory, r: reg)
    requires r < 31
    ensures WordAt(m, r) == m[r] + 256 * (m[r + 1] as int)
  {
  }

  /** Writing a pointer back moves it there and leaves the rest of memory alone. */
  lemma PutPointerAt(s: State, m: Memory, p: Pointer, a: nat)
    requires a <= MEM_SIZE
    ensures var r := PutPointer(m, p, a, s.max64k, s.max256b);
      && Clip(PointerAt(r, p, s.max64k), s.max64k, s.max256b) == Clip(a, s.max64k, s.max256b)
      && (forall x | 0 <= x < MEM_SIZE && !IsPointerCell(p, x) :: r[x] == m[x])
      && (s.max256b ==> r[PairReg(p) + 1] == m[PairReg(p) + 1])
      && (s.max256b || s.max64k ==> r[RampReg(p)] == m[RampReg(p)])
  {
    hide Clip, PointerAt;
    PutPointerLands(m, p, a, s.max64k, s.max256b);
  }

  lemma TargetInc(s: State, p: Pointer)
    ensures Target(s, p, PostInc) == At(s, p)
  {
  }

  lemma TargetDec(s: State, p: Pointer, base: nat, i: nat)
    requires At(s, p) == Cell(s, base, i + 1)
    ensures Target(s, p, PreDec) == Cell(s, base, i)
  {
    hide PointerAt;
    var ptr := PointerAt(s.mem, p, s.max64k);
    ClipPrev(ptr, base + i, s.max64k, s.max256b);
  }

  lemma ClipPrev(x: nat, y: nat, max64k: bool, max256b: bool)
    requires x < MEM_SIZE && Clip(x, max64k, max256b) == Clip(y + 1, max64k, max256b)
    ensures Clip((x - 1) % MEM_SIZE, max64k, max256b) == Clip(y, max64k, max256b)
  {
    if max256b {
      PrevMod(x, y, 0x100);
      ModMod(x - 1, 0x100, 0x1_0000);
    } else if max64k {
      PrevMod(x, y, 0x1_0000);
      ModMod(x - 1, 0x1_0000, 0x100);
    } else {
      PrevMod(x, y, MEM_SIZE);
    }
  }

  lemma ModMod(x: int, n: nat, q: nat)
    requires n > 0 && n * q == 0x100_0000
    ensures x % 0x100_0000 % n == x % n
  {
    var d := x / 0x100_0000;
    assert x == x % 0x100_0000 + n * (q * d) by {
      assert n * (q * d) == n * q * d;
    }
    SameMod(x, x % 0x100_0000, n, q * d);
  }

  /** The next step stores register byte v through p with post-increment. */
  predicate StoresByte(rom: Rom, s: State, p: Pointer, v: byte) {
    && !s.skip && Fetch(rom, s.pc).Ok?
    && var i := Fetch(rom, s.pc).value;
    && i.LdSt? && i.ptr == p && i.mode == PostInc && i.store && s.mem[i.d] == v && Faults(i, s.pc22).None?
  }

  /** The next step loads through p with pre-decrement. */
  predicate LoadsByte(rom: Rom, s: State, p: Pointer) {
    && !s.skip && Fetch(rom, s.pc).Ok?
    && var i := Fetch(rom, s.pc).value;
    && i.LdSt? && i.ptr == p && i.mode == PreDec && !i.store && Faults(i, s.pc22).None?
  }

  function LoadReg(rom: Rom, s: State): (d: reg) {
    if Fetch(rom, s.pc).Ok? && Fetch(rom, s.pc).value.LdSt? then Fetch(rom, s.pc).value.d else 0
  }

  lemma LdstStep(rom: Rom, s: State, p: Pointer, mode: Mode, d: reg, store: bool)
    requires !s.skip && Fetch(rom, s.pc) == Ok(LdSt(p, mode, d, store)) && Faults(LdSt(p, mode, d, store), s.pc22).None?
    ensures Step(rom, s).Ok? && SameModel(s, After(rom, s))
    ensures After(rom, s).mem == LoadStore(s, p, mode, d, store)
  {
    hide Fetch, Faults, LoadStore, PcAfter, AluMem;
    StepKeepsModel(rom, s);
  }

  lemma StoreEffect(rom: Rom, s: State, p: Pointer, v: byte)
    requires StoresByte(rom, s, p, v) && !IsPointerCell(p, At(s, p))
    ensures var t, a := After(rom, s), At(s, p);
      && Step(rom, s).Ok? && SameModel(s, t) && SameRest(s, t, p)
      && t.mem[a] == v && At(t, p) == Clip(a + 1, s.max64k, s.max256b)
      && forall x | 0 <= x < MEM_SIZE && x != a && !IsPointerCell(p, x) :: t.mem[x] == s.mem[x]
  {
    hide Fetch, Faults, Target, PointerAt, PutPointer, Clip, Step, After;
    var d := Fetch(rom, s.pc).value.d;
    var a := At(s, p);
    LdstStep(rom, s, p, PostInc, d, true);
    TargetInc(s, p);
    PutPointerAt(s, s.mem[a := v], p, a + 1);
  }

  lemma LoadEffect(rom: Rom, s: State, p: Pointer, base: nat, i: nat)
    requires LoadsByte(rom, s, p) && At(s, p) == Cell(s, base, i + 1)
    ensures var t, a, d := After(rom, s), Cell(s, base, i), LoadReg(rom, s);
      && Step(rom, s).Ok? && SameModel(s, t) && SameRest(s, t, p)
      && t.mem[d] == s.mem[a] && At(t, p) == a
      && forall x | 0 <= x < MEM_SIZE && x != d && !IsPointerCell(p, x) :: t.mem[x] == s.mem[x]
  {
    hide Fetch, Target, PointerAt, PutPointer, Clip, Step, After;
    var d := Fetch(rom, s.pc).value.d;
    var a := Cell(s, base, i);
    LdstStep(rom, s, p, PreDec, d, false);
    TargetDec(s, p, base, i);
    PutPointerAt(s, s.mem[d := s.mem[a]], p, a);
    ClipIdem(base + i, s.max64k, s.max256b);
  }

  lemma ClipIdem(x: nat, max64k: bool, max256b: bool)
    ensures Clip(Clip(x, max64k, max256b), max64k, max256b) == Clip(x, max64k, max256b)
  {
  }

  // ----- n stores, then n loads -----

  /** Code run between two links leaves the pointer and the buffer of n cells alone. */
  predicate Untouched(t: State, u: State, p: Pointer, base: nat, n: nat) {
    && SameModel(t, u)
    && (forall a | 0 <= a < MEM_SIZE && IsPointerCell(p, a) :: u.mem[a] == t.mem[a])
    && (forall k: nat | k < n :: u.mem[Cell(t, base, k)] == t.mem[Cell(t, base, k)])
  }

  /** The states at which n = |vs| stores of the bytes vs and then n loads are about to run. */
  ghost predicate PushPopRun(rom: Rom, ss: seq<State>, p: Pointer, vs: seq<byte>) {
    var n := |vs|;
    && |ss| == 2 * n && n > 0
    && var base := At(ss[0], p);
    && n <= Space(ss[0])
    && (forall k: nat | k < n :: !IsPointerCell(p, Cell(ss[0], base, k)))
    && (forall k: nat | k < n :: StoresByte(rom, ss[k], p, vs[k]))
    && (forall k: nat | n <= k < 2 * n :: LoadsByte(rom, ss[k], p))
    && (forall k: nat, j: nat | n <= k < 2 * n && j < n :: LoadReg(rom, ss[k]) != Cell(ss[0], base, j))
    && (forall k: nat | 0 < k < 2 * n :: Untouched(After(rom, ss[k - 1]), ss[k], p, base, n))
  }

  /** Before link k: the pointer stands where it should and the bytes stored so far are in place. */
  predicate InStep(s0: State, u: State, p: Pointer, vs: seq<byte>, k: nat) {
    var n, base := |vs|, At(s0, p);
    && k <= 2 * n
    && SameModel(s0, u) && SameRest(s0, u, p)
    && At(u, p) == Cell(s0, base, if k <= n then k else 2 * n - k)
    && forall i: nat | i < n && i < k :: u.mem[Cell(s0, base, i)] == vs[i]
  }

  lemma Carry(s0: State, t: State, u: State, p: Pointer, vs: seq<byte>, k: nat)
    requires InStep(s0, t, p, vs, k) && Untouched(t, u, p, At(s0, p), |vs|)
    ensures InStep(s0, u, p, vs, k)
  {
    hide Clip;
    PointerCells(t, u, p);
    forall i: nat | i < |vs| ensures u.mem[Cell(s0, At(s0, p), i)] == t.mem[Cell(s0, At(s0, p), i)] {
      assert Cell(s0, At(s0, p), i) == Cell(t, At(s0, p), i);
    }
  }

  lemma PointerCells(t: State, u: State, p: Pointer)
    requires SameModel(t, u) && forall a | 0 <= a < MEM_SIZE && IsPointerCell(p, a) :: u.mem[a] == t.mem[a]
    ensures At(u, p) == At(t, p) && SameRest(t, u, p)
  {
    hide Clip;
    assert IsPointerCell(p, PairReg(p)) && IsPointerCell(p, PairReg(p) + 1) && IsPointerCell(p, RampReg(p));
  }

  lemma StoreInStep(rom: Rom, s0: State, s: State, p: Pointer, vs: seq<byte>, k: nat)
    requires k < |vs| <= Space(s0) && InStep(s0, s, p, vs, k) && StoresByte(rom, s, p, vs[k])
    requires forall j: nat | j < |vs| :: !IsPointerCell(p, Cell(s0, At(s0, p), j))
    ensures InStep(s0, After(rom, s), p, vs, k + 1)
  {
    hide Clip, After, StoresByte, PointerAt, Fetch, Step, InStep;
    NotPointer(s0, s, p, vs, k);
    StoreEffect(rom, s, p, vs[k]);
    Stored(s0, s, After(rom, s), p, vs, k);
  }

  lemma NotPointer(s0: State, s: State, p: Pointer, vs: seq<byte>, k: nat)
    requires k < |vs| && InStep(s0, s, p, vs, k)
    requires forall j: nat | j < |vs| :: !IsPointerCell(p, Cell(s0, At(s0, p), j))
    ensures !IsPointerCell(p, At(s, p))
  {
    hide Clip, PointerAt;
    assert At(s, p) == Cell(s0, At(s0, p), k);
  }

  /** The state t that a store from s leaves is in step for the next link. */
  lemma Stored(s0: State, s: State, t: State, p: Pointer, vs: seq<byte>, k: nat)
    requires k < |vs| <= Space(s0) && InStep(s0, s, p, vs, k)
    requires forall j: nat | j < |vs| :: !IsPointerCell(p, Cell(s0, At(s0, p), j))
    requires SameModel(s, t) && SameRest(s, t, p)
    requires t.mem[At(s, p)] == vs[k] && At(t, p) == Clip(At(s, p) + 1, s.max64k, s.max256b)
    requires forall x | 0 <= x < MEM_SIZE && x != At(s, p) && !IsPointerCell(p, x) :: t.mem[x] == s.mem[x]
    ensures InStep(s0, t, p, vs, k + 1)
  {
    hide Clip, PointerAt, Space, Cell, At, IsPointerCell;
    var base := At(s0, p);
    CellNext(s0, base, k, Cell(s0, base, k));
    forall i: nat | i < k + 1 ensures t.mem[Cell(s0, base, i)] == vs[i] {
      if i < k {
        CellsDiffer(s0, base, i, k);
      }
    }
  }

  lemma LoadInStep(rom: Rom, s0: State, s: State, p: Pointer, vs: seq<byte>, k: nat)
    requires |vs| <= k < 2 * |vs| && InStep(s0, s, p, vs, k) && LoadsByte(rom, s, p)
    requires forall j: nat | j < |vs| :: !IsPointerCell(p, Cell(s0, At(s0, p), j))
    requires forall j: nat | j < |vs| :: LoadReg(rom, s) != Cell(s0, At(s0, p), j)
    ensures InStep(s0, After(rom, s), p, vs, k + 1)
    ensures After(rom, s).mem[LoadReg(rom, s)] == vs[2 * |vs| - 1 - k]
  {
    hide Clip, After, LoadsByte, PointerAt, LoadReg, At, IsPointerCell, SameRest, Cell, InStep, Step;
    var base, i := At(s0, p), 2 * |vs| - 1 - k;
    StandsAt(s0, s, p, vs, k);
    LoadEffect(rom, s, p, base, i);
    SameCell(s0, s, base, i);
    Loaded(s0, s, After(rom, s), p, vs, k, LoadReg(rom, s));
  }

  lemma SameCell(s: State, t: State, base: nat, i: nat)
    requires SameModel(s, t)
    ensures Cell(s, base, i) == Cell(t, base, i)
  {
  }

  lemma StandsAt(s0: State, s: State, p: Pointer, vs: seq<byte>, k: nat)
    requires |vs| <= k < 2 * |vs| && InStep(s0, s, p, vs, k)
    ensures SameModel(s0, s) && SameRest(s0, s, p) && At(s, p) == Cell(s, At(s0, p), 2 * |vs| - k)
    ensures forall j: nat | j < |vs| :: s.mem[Cell(s0, At(s0, p), j)] == vs[j]
  {
    hide Clip, At, SameRest, Cell;
    SameCell(s0, s, At(s0, p), 2 * |vs| - k);
  }

  /** The state t that a load into d leaves from s is in step for the next link. */
  lemma Loaded(s0: State, s: State, t: State, p: Pointer, vs: seq<byte>, k: nat, d: reg)
    requires |vs| <= k < 2 * |vs| && InStep(s0, s, p, vs, k)
    requires forall j: nat | j < |vs| :: !IsPointerCell(p, Cell(s0, At(s0, p), j))
    requires forall j: nat | j < |vs| :: d != Cell(s0, At(s0, p), j)
    requires SameModel(s, t) && SameRest(s, t, p) && At(t, p) == Cell(s0, At(s0, p), 2 * |vs| - 1 - k)
    requires forall x | 0 <= x < MEM_SIZE && x != d && !IsPointerCell(p, x) :: t.mem[x] == s.mem[x]
    ensures InStep(s0, t, p, vs, k + 1)
  {
    hide Clip, PointerAt, Cell, At, IsPointerCell, SameRest;
    SameRestTrans(s0, s, t, p);
  }

  lemma SameRestTrans(s: State, t: State, u: State, p: Pointer)
    requires SameModel(s, t) && SameRest(s, t, p) && SameRest(t, u, p)
    ensures SameRest(s, u, p)
  {
  }

  lemma {:induction false} RunInStep(rom: Rom, ss: seq<State>, p: Pointer, vs: seq<byte>, k: nat)
    requires PushPopRun(rom, ss, p, vs) && k < 2 * |vs|
    ensures InStep(ss[0], ss[k], p, vs, k) && InStep(ss[0], After(rom, ss[k]), p, vs, k + 1)
    ensures k >= |vs| ==> After(rom, ss[k]).mem[LoadReg(rom, ss[k])] == vs[2 * |vs| - 1 - k]
  {
    hide InStep, Clip, PointerAt, After, StoresByte, LoadsByte, LoadReg, Untouched, Cell, At, Space, IsPointerCell;
    if k == 0 {
      StartInStep(ss[0], p, vs);
    } else {
      RunInStep(rom, ss, p, vs, k - 1);
      assert Untouched(After(rom, ss[k - 1]), ss[k], p, At(ss[0], p), |vs|);
      Carry(ss[0], After(rom, ss[k - 1]), ss[k], p, vs, k);
    }
    if k < |vs| {
      assert StoresByte(rom, ss[k], p, vs[k]);
      StoreInStep(rom, ss[0], ss[k], p, vs, k);
    } else {
      assert LoadsByte(rom, ss[k], p);
      LoadInStep(rom, ss[0], ss[k], p, vs, k);
    }
  }

  lemma StartInStep(s0: State, p: Pointer, vs: seq<byte>)
    ensures InStep(s0, s0, p, vs, 0)
  {
    hide PointerAt;
    ClipIdem(PointerAt(s0.mem, p, s0.max64k), s0.max64k, s0.max256b);
  }

  /** The loads return the bytes in reverse and the pointer's three cells end as they began. */
  lemma PushPopReverses(rom: Rom, ss: seq<State>, p: Pointer, vs: seq<byte>)
    requires PushPopRun(rom, ss, p, vs)
    ensures forall k: nat | |vs| <= k < 2 * |vs| ::
      Step(rom, ss[k]).Ok? && After(rom, ss[k]).mem[LoadReg(rom, ss[k])] == vs[2 * |vs| - 1 - k]
    ensures var t := After(rom, ss[2 * |vs| - 1]);
      forall a | 0 <= a < MEM_SIZE && IsPointerCell(p, a) :: t.mem[a] == ss[0].mem[a]
  {
    hide PushPopRun, InStep, Clip, After, LoadReg, Step;
    assert |ss| == 2 * |vs| && |vs| > 0 by {
      RunLength(rom, ss, p, vs);
    }
    forall k: nat | |vs| <= k < 2 * |vs|
      ensures Step(rom, ss[k]).Ok? && After(rom, ss[k]).mem[LoadReg(rom, ss[k])] == vs[2 * |vs| - 1 - k]
    {
      RunInStep(rom, ss, p, vs, k);
      LoadOk(rom, ss, p, vs, k);
    }
    RunInStep(rom, ss, p, vs, 2 * |vs| - 1);
    PointerRestored(ss[0], After(rom, ss[2 * |vs| - 1]), p, vs);
  }

  lemma RunLength(rom: Rom, ss: seq<State>, p: Pointer, vs: seq<byte>)
    requires PushPopRun(rom, ss, p, vs)
    ensures |ss| == 2 * |vs| && |vs| > 0
  {
    hide Clip, StoresByte, LoadsByte, Untouched, Cell, At, Space, LoadReg;
  }

  lemma LoadOk(rom: Rom, ss: seq<State>, p: Pointer, vs: seq<byte>, k: nat)
    requires PushPopRun(rom, ss, p, vs) && |vs| <= k < 2 * |vs|
    ensures Step(rom, ss[k]).Ok?
  {
    hide Clip, Untouched, Cell, At, Space, LoadReg, Fetch, Faults, Step, StoresByte;
    assert LoadsByte(rom, ss[k], p);
    var i := Fetch(rom, ss[k].pc).value;
    LdstStep(rom, ss[k], p, PreDec, i.d, false);
  }

  lemma PointerRestored(s: State, t: State, p: Pointer, vs: seq<byte>)
    requires InStep(s, t, p, vs, 2 * |vs|)
    ensures forall a | 0 <= a < MEM_SIZE && IsPointerCell(p, a) :: t.mem[a] == s.mem[a]
  {
    hide Clip, PointerAt;
    ClipIdem(PointerAt(s.mem, p, s.max64k), s.max64k, s.max256b);
    CellsFromPointer(s, t, p);
  }

  /** Where the pointer stands, together with the cells it does not write, determines all three cells. */
  lemma CellsFromPointer(s: State, t: State, p: Pointer)
    requires SameModel(s, t) && SameRest(s, t, p) && At(t, p) == At(s, p)
    ensures t.mem[PairReg(p)] == s.mem[PairReg(p)] && t.mem[PairReg(p) + 1] == s.mem[PairReg(p) + 1]
    ensures t.mem[RampReg(p)] == s.mem[RampReg(p)]
  {
    var i, j := s.mem, t.mem;
    var r, q := PairReg(p), RampReg(p);
    if s.max256b {
      LowByte(i[r], i[r + 1], i[q], s.max64k);
      LowByte(j[r], j[r + 1], j[q], s.max64k);
    } else {
      Digits(i[r], i[r + 1], i[q], j[r], j[r + 1], j[q], s.max64k);
    }
  }

  /** A number is determined by its three bytes, and determines them. */
  lemma Bytes3(lo: byte, hi: byte, ext: byte, lo2: byte, hi2: byte, ext2: byte)
    requires lo + 256 * (hi as int) + 0x1_0000 * (ext as int) == lo2 + 256 * (hi2 as int) + 0x1_0000 * (ext2 as int)
    ensures lo == lo2 && hi == hi2 && ext == ext2
  {
    var x, y := lo + 256 * (hi as int), lo2 + 256 * (hi2 as int);
    assert 0x1_0000 * (ext as int - ext2) == y - x;
    assert ext == ext2;
    assert 256 * (hi as int - hi2) == lo2 - lo;
  }

  /** Where the pointer stands, when it is not clipped to a byte, is its number. */
  lemma Digits(lo: byte, hi: byte, ext: byte, lo2: byte, hi2: byte, ext2: byte, max64k: bool)
    requires max64k ==> ext == ext2
    requires var n := if max64k then 0x1_0000 else MEM_SIZE;
      (lo + 256 * (hi as int) + if max64k then 0 else 0x1_0000 * (ext as int)) % n
      == (lo2 + 256 * (hi2 as int) + if max64k then 0 else 0x1_0000 * (ext2 as int)) % n
    ensures lo == lo2 && hi == hi2 && ext == ext2
  {
    var x, y := lo + 256 * (hi as int), lo2 + 256 * (hi2 as int);
    assert 0 <= x < 0x1_0000 && 0 <= y < 0x1_0000;
    if max64k {
      assert x == y;
    } else {
      SmallMod(x + 0x1_0000 * (ext as int));
      SmallMod(y + 0x1_0000 * (ext2 as int));
    }
    Bytes3(lo, hi, ext, lo2, hi2, ext2);
  }

  lemma SmallMod(x: nat)
    requires x < MEM_SIZE
    ensures x % MEM_SIZE == x
  {
  }

  lemma LowByte(lo: byte, hi: byte, ext: byte, max64k: bool)
    ensures (lo + 256 * (hi as int) + if max64k then 0 else 0x1_0000 * (ext as int)) % 256 == lo
  {
  }
}
