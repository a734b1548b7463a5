/**
 Direct data transfers and block reads of flash: where the addresses agree.

 STS masks its address to 256 bytes where LDS does not, and RAMPD is itself a
 data address; ELPM Rd,Z+ steps Z but not RAMPZ.  Each has its exact condition.
 */
module Transfers {
  import opened Bytes
  import opened Isa
  import opened Cpu
  import opened Chains

  // ----- LDS after STS -----

  /** LDS and STS mean the same cell exactly outside the doubly limited model or below 256. */
  lemma AddressesAgreeIff(s: State, addr: word)
    ensures LdsAddr(s, addr) == StsAddr(s, addr) <==> !(s.max64k && s.max256b) || addr < 256
  {
  }

  predicate Stores(rom: Rom, s: State, d: reg, addr: word) {
    !s.skip && Fetch(rom, s.pc) == Ok(Sts(d, addr))
  }

  predicate Loads(rom: Rom, u: State, r: reg, addr: word) {
    !u.skip && Fetch(rom, u.pc) == Ok(Lds(r, addr))
  }

  lemma StsStep(rom: Rom, s: State, d: reg, addr: word)
    requires Stores(rom, s, d, addr)
    ensures Step(rom, s).Ok?
    ensures var t := After(rom, s);
      t.max64k == s.max64k && t.max256b == s.max256b && t.mem == s.mem[StsAddr(s, addr) := s.mem[d]]
  {
    hide Fetch, Wrap, StsAddr;
  }

  lemma LdsStep(rom: Rom, u: State, r: reg, addr: word)
    requires Loads(rom, u, r, addr)
    ensures Step(rom, u).Ok? && After(rom, u).mem == u.mem[r := u.mem[LdsAddr(u, addr)]]
  {
    hide Fetch, Wrap, LdsAddr;
  }

  /** Between the two, code may run that leaves the model, RAMPD and the cell stored to as they are. */
  predicate Kept(t: State, u: State, cell: int)
    requires 0 <= cell < MEM_SIZE
  {
    && u.max64k == t.max64k && u.max256b == t.max256b
    && u.mem[RAMPD] == t.mem[RAMPD] && u.mem[cell] == t.mem[cell]
  }

  /** LDS looks where STS stored: no 256-byte mask is in play, and the store has not changed RAMPD under it. */
  predicate FindsIt(s: State, d: reg, addr: word) {
    if s.max64k then !s.max256b || addr < 256
    else StsAddr(s, addr) != RAMPD || s.mem[d] == s.mem[RAMPD]
  }

  /** LDS from the operand of an STS reads the cell stored to exactly when it finds it, and then the byte comes back. */
  lemma StoreLoadIff(rom: Rom, s: State, d: reg, addr: word, u: State, r: reg)
    requires Stores(rom, s, d, addr) && Loads(rom, u, r, addr) && Kept(After(rom, s), u, StsAddr(s, addr))
    ensures LdsAddr(u, addr) == StsAddr(s, addr) <==> FindsIt(s, d, addr)
    ensures FindsIt(s, d, addr) ==> Step(rom, u).Ok? && After(rom, u).mem[r] == s.mem[d]
  {
    hide Fetch, After, Step;
    StsStep(rom, s, d, addr);
    LdsStep(rom, u, r, addr);
  }

  /** Where the mask applies, the load right after the store gets what was at the unmasked address all along. */
  lemma MaskedStoreLost(rom: Rom, s: State, d: reg, addr: word, u: State, r: reg)
    requires Stores(rom, s, d, addr) && Loads(rom, u, r, addr) && u == After(rom, s).(pc := u.pc, insns := u.insns)
    requires s.max64k && s.max256b && addr >= 256
    ensures Step(rom, u).Ok? && After(rom, u).mem[r] == s.mem[addr]
  {
    hide Fetch, After, Step;
    StsStep(rom, s, d, addr);
    LdsStep(rom, u, r, addr);
  }

  /** Storing to RAMPD moves the window: the load that follows looks in the bank just written. */
  lemma RampStoreMoves(rom: Rom, s: State, d: reg, u: State, r: reg)
    requires Stores(rom, s, d, RAMPD) && Loads(rom, u, r, RAMPD) && u == After(rom, s).(pc := u.pc, insns := u.insns)
    requires !s.max64k && s.mem[RAMPD] == 0
    ensures LdsAddr(u, RAMPD) == 0x1_0000 * (s.mem[d] as int) + RAMPD
  {
    hide Fetch, After, Step;
    StsStep(rom, s, d, RAMPD);
  }

  // ----- ELPM Rd,Z+ -----

  /** The next step reads flash through Z and increments it, into a register other than Z. */
  predicate ReadsFlash(rom: Rom, s: State, ext: bool) {
    && !s.skip && Fetch(rom, s.pc).Ok?
    && var i := Fetch(rom, s.pc).value;
    && i.Lpm? && i.inc && i.ext == ext && i.d < REGP_Z
  }

  function FlashReg(rom: Rom, s: State): (d: reg) {
    if Fetch(rom, s.pc).Ok? && Fetch(rom, s.pc).value.Lpm? then Fetch(rom, s.pc).value.d else 0
  }

  lemma FlashStep(rom: Rom, s: State, ext: bool)
    requires ReadsFlash(rom, s, ext)
    ensures Step(rom, s).Ok?
    ensures var t, z := After(rom, s), WordAt(s.mem, REGP_Z);
      && t.mem[FlashReg(rom, s)] == LpmByte(rom, LpmAddr(s.mem, ext))
      && WordAt(t.mem, REGP_Z) == (z as int + 1) % 0x1_0000 && t.mem[RAMPZ] == s.mem[RAMPZ]
  {
    hide Fetch, Wrap, LpmByte, Step;
    var i := Fetch(rom, s.pc).value;
    LpmStep(rom, s, i);
    NextZ(WordAt(s.mem, REGP_Z), s.mem[RAMPZ], ext);
  }

  lemma LpmStep(rom: Rom, s: State, i: Insn)
    requires !s.skip && Fetch(rom, s.pc) == Ok(i) && i.Lpm? && i.inc && i.d < REGP_Z
    ensures Step(rom, s).Ok?
    ensures var a := LpmAddr(s.mem, i.ext);
      After(rom, s).mem == PutWord(s.mem[i.d := LpmByte(rom, a)], REGP_Z, (a + 1) % 0x1_0000)
  {
    hide Fetch, Wrap, LpmByte, LpmAddr, PutWord;
  }

  lemma NextZ(z: word, ramp: byte, ext: bool)
    ensures (z as int + (if ext then 0x1_0000 * (ramp as int) else 0) + 1) % 0x1_0000 == (z as int + 1) % 0x1_0000
  {
  }

  /** States at which n such reads are about to run, with Z and RAMPZ left alone in between. */
  ghost predicate BlockRead(rom: Rom, ss: seq<State>, ext: bool) {
    && (forall k | 0 <= k < |ss| :: ReadsFlash(rom, ss[k], ext))
    && (forall k | 0 < k < |ss| :: SameZ(After(rom, ss[k - 1]), ss[k]))
  }

  predicate SameZ(t: State, u: State) {
    WordAt(u.mem, REGP_Z) == WordAt(t.mem, REGP_Z) && u.mem[RAMPZ] == t.mem[RAMPZ]
  }

  lemma {:induction false} BlockAt(rom: Rom, ss: seq<State>, ext: bool, k: nat)
    requires BlockRead(rom, ss, ext) && k < |ss|
    ensures WordAt(ss[k].mem, REGP_Z) == (WordAt(ss[0].mem, REGP_Z) as int + k) % 0x1_0000
    ensures ss[k].mem[RAMPZ] == ss[0].mem[RAMPZ]
  {
    hide ReadsFlash, After, Step, WordAt, Fetch, FlashReg;
    if k > 0 {
      BlockAt(rom, ss, ext, k - 1);
      FlashStep(rom, ss[k - 1], ext);
      assert SameZ(After(rom, ss[k - 1]), ss[k]);
      NextMod(WordAt(ss[0].mem, REGP_Z) as int + (k - 1), 0x1_0000);
    }
  }

  /** Every read loads the flash byte at its address, and address k of the block is k past the first exactly when the
      block has not crossed a 64 KiB boundary by then: for ELPM this loses the carry into RAMPZ. */
  lemma BlockReadIff(rom: Rom, ss: seq<State>, ext: bool, k: nat)
    requires BlockRead(rom, ss, ext) && k < |ss|
    ensures Step(rom, ss[k]).Ok?
    ensures After(rom, ss[k]).mem[FlashReg(rom, ss[k])] == LpmByte(rom, LpmAddr(ss[k].mem, ext))
    ensures var base, z := LpmAddr(ss[0].mem, ext), WordAt(ss[0].mem, REGP_Z);
      LpmAddr(ss[k].mem, ext) == base + k <==> z + k < 0x1_0000
  {
    hide ReadsFlash, After, Step, WordAt, Fetch, FlashReg, LpmByte;
    BlockAt(rom, ss, ext, k);
    assert ReadsFlash(rom, ss[k], ext);
    FlashStep(rom, ss[k], ext);
  }

  /** So n reads cover n consecutive flash addresses exactly when the block stays within 64 KiB. */
  lemma BlockConsecutiveIff(rom: Rom, ss: seq<State>, ext: bool)
    requires BlockRead(rom, ss, ext) && ss != []
    ensures (forall k: nat | k < |ss| :: LpmAddr(ss[k].mem, ext) == LpmAddr(ss[0].mem, ext) + k)
       <==> WordAt(ss[0].mem, REGP_Z) + |ss| <= 0x1_0000
  {
    hide BlockRead, LpmAddr, WordAt;
    forall k: nat | k < |ss|
      ensures LpmAddr(ss[k].mem, ext) == LpmAddr(ss[0].mem, ext) + k <==> WordAt(ss[0].mem, REGP_Z) + k < 0x1_0000
    {
      BlockReadIff(rom, ss, ext, k);
    }
    var last: nat := |ss| - 1;
    assert LpmAddr(ss[last].mem, ext) == LpmAddr(ss[0].mem, ext) + last
      <==> WordAt(ss[0].mem, REGP_Z) + last < 0x1_0000;
  }
}
