/**
 The register block of the GDB remote protocol: the `g` reply and the `G` request.

 Section "Packets" of the GDB Remote Serial Protocol appendix has each register
 as pairs of hex digits; the AVR target counts the program counter in bytes,
 the emulator in words.
 */
module RegisterText {
  import opened Bytes
  import opened Isa
  import opened Cpu
  import opened Machine

  predicate IsHex(c: char) {
    '0' <= c <= '9' || 'a' <= c <= 'f' || 'A' <= c <= 'F'
  }

  function HexVal(c: char): (v: nat)
    requires IsHex(c)
    ensures v < 16
  {
    if c <= '9' then c as int - '0' as int
    else if c <= 'F' then c as int - 'A' as int + 10
    else c as int - 'a' as int + 10
  }

  function HexDigit(v: nat): (c: char)
    requires v < 16
    ensures IsHex(c) && HexVal(c) == v
  {
    if v < 10 then ('0' as int + v) as char else ('a' as int + v - 10) as char
  }

  /** printf("%02x"). */
  function Hex2(b: byte): (t: string)
    ensures |t| == 2 && IsHex(t[0]) && IsHex(t[1]) && 16 * HexVal(t[0]) + HexVal(t[1]) == b
  {
    [HexDigit(b / 16), HexDigit(b % 16)]
  }

  function HexAll(bs: seq<byte>): (t: string)
    ensures |t| == 2 * |bs|
  {
    if bs == [] then "" else HexAll(bs[..|bs| - 1]) + Hex2(bs[|bs| - 1])
  }

  /** sscanf("%02x") at position p: one or two hex digits, and where reading stopped. */
  function Scan(t: string, p: nat): (r: Option<(byte, nat)>)
    ensures r.Some? ==> p < r.value.1 <= p + 2 && r.value.1 <= |t|
  {
    if p >= |t| || !IsHex(t[p]) then None
    else if p + 1 < |t| && IsHex(t[p + 1]) then Some((16 * HexVal(t[p]) + HexVal(t[p + 1]), p + 2))
    else Some((HexVal(t[p]), p + 1))
  }

  /** n conversions in one sscanf, each starting where the one before stopped. */
  function ScanRun(t: string, p: nat, n: nat): (r: Option<seq<byte>>)
    ensures r.Some? ==> |r.value| == n
    decreases n
  {
    if n == 0 then Some([])
    else
      match Scan(t, p)
      case None => None
      case Some((b, q)) =>
        match ScanRun(t, q, n - 1)
        case None => None
        case Some(bs) => Some([b] + bs)
  }

  lemma {:induction false} HexAllAt(bs: seq<byte>, k: nat)
    requires k < |bs|
    ensures HexAll(bs)[2 * k..2 * k + 2] == Hex2(bs[k])
  {
    hide Hex2;
    var n := |bs| - 1;
    if k < n {
      HexAllAt(bs[..n], k);
      assert HexAll(bs)[2 * k..2 * k + 2] == HexAll(bs[..n])[2 * k..2 * k + 2];
    }
  }

  lemma ScanHex(bs: seq<byte>, k: nat)
    requires k < |bs|
    ensures var r := Scan(HexAll(bs), 2 * k); r.Some? && r.value.0 == bs[k] && r.value.1 == 2 * k + 2
  {
    HexAllAt(bs, k);
    var t := HexAll(bs);
    assert t[2 * k] == Hex2(bs[k])[0] && t[2 * k + 1] == Hex2(bs[k])[1];
  }

  lemma {:induction false} ScanRunHex(bs: seq<byte>, k: nat, n: nat)
    requires k + n <= |bs|
    ensures ScanRun(HexAll(bs), 2 * k, n) == Some(bs[k..k + n])
    decreases n
  {
    hide Scan, HexAll;
    if n == 0 {
      assert bs[k..k] == [];
    } else {
      ScanHex(bs, k);
      ScanRunHex(bs, k + 1, n - 1);
      assert [bs[k]] + bs[k + 1..k + n] == bs[k..k + n];
    }
  }

  // ----- the block -----

  /** SREG, SP low and high, and the byte-addressed program counter. */
  function TailBytes(m: Memory, pc: u32): (bs: seq<byte>)
    ensures |bs| == 7
  {
    [m[SREG], m[SP_LO], m[SP_HI], 2 * pc % 256, pc / 128 % 256, pc / 0x8000 % 128, 0]
  }

  function GetText(m: Memory, pc: u32): (t: string) {
    HexAll(m[..32] + TailBytes(m, pc))
  }

  /** The first n registers read from the text, or None when one does not parse. */
  function Registers(t: string, n: nat): (r: Option<seq<byte>>)
    ensures r.Some? ==> |r.value| == n
  {
    if n == 0 then Some([])
    else
      match Registers(t, n - 1)
      case None => None
      case Some(bs) =>
        match Scan(t, 2 * (n - 1))
        case None => None
        case Some((b, _)) => Some(bs + [b])
  }

  function PcOf(b0: byte, b1: byte, b2: byte, b3: byte): (pc: u32) {
    (b0 + 256 * (b1 as int) + 0x1_0000 * (b2 as int) + 0x100_0000 * (b3 as int)) / 2
  }

  predicate PcFits(pc: u32, pc22: bool) {
    pc < 0x40_0000 && (!pc22 ==> pc < 0x1_0000)
  }

  /** m with the given registers, SREG and SP. */
  function Put(m: Memory, regs: seq<byte>, sreg: byte, spLo: byte, spHi: byte): (r: Memory)
    requires |regs| == 32
  {
    var r: Memory := regs + m[32..];
    r[SREG := sreg][SP_LO := spLo][SP_HI := spHi]
  }

  /** gdb_setregs on the text after the letter G; None stands for a failed assertion, which ends the process. */
  function SetText(m: Memory, pc22: bool, t: string): (r: Option<(Memory, u32)>) {
    match Registers(t, 32)
    case None => None
    case Some(regs) =>
      match Scan(t, 64)
      case None => None
      case Some((sreg, _)) =>
        match ScanRun(t, 66, 2)
        case None => None
        case Some(sp) =>
          match ScanRun(t, 70, 4)
          case None => None
          case Some(b) =>
            var pc := PcOf(b[0], b[1], b[2], b[3]);
            if !PcFits(pc, pc22) then None
            else
              Some((Put(m, regs, sreg, sp[0], sp[1]), pc))
  }

  lemma {:induction false} RegistersHex(bs: seq<byte>, n: nat)
    requires n <= |bs|
    ensures Registers(HexAll(bs), n) == Some(bs[..n])
  {
    hide Scan, HexAll;
    if n > 0 {
      RegistersHex(bs, n - 1);
      ScanHex(bs, n - 1);
      assert bs[..n - 1] + [bs[n - 1]] == bs[..n];
    }
  }

  /** A program counter split into 7, 8, 7 and the remaining bits. */
  lemma Sevenths(pc: u32)
    ensures pc == pc % 128 + 128 * (pc / 128 % 256) + 0x8000 * (pc / 0x8000 % 128) + 0x40_0000 * (pc / 0x40_0000)
  {
    var a, b := pc / 128, pc / 0x8000;
    assert pc == 128 * a + pc % 128;
    assert a == 256 * b + a % 256 by {
      assert b == a / 256;
    }
    assert b == 128 * (pc / 0x40_0000) + b % 128 by {
      assert pc / 0x40_0000 == b / 128;
    }
  }

  /** Doubling into bytes and halving back keeps 22 bits of the program counter. */
  lemma PcRoundTrip(pc: u32)
    ensures PcOf(2 * pc % 256, pc / 128 % 256, pc / 0x8000 % 128, 0) == Narrow(pc)
  {
    var x0, x1, x2, q := pc % 128, pc / 128 % 256, pc / 0x8000 % 128, pc / 0x40_0000;
    Sevenths(pc);
    ModOf(2 * pc, 256, pc / 128, 2 * x0);
    ModOf(pc, 0x40_0000, q, x0 + 128 * x1 + 0x8000 * x2);
    assert PcOf(2 * x0, x1, x2, 0) == x0 + 128 * x1 + 0x8000 * x2;
  }

  /** The registers, SREG and SP of n written over m. */
  function Overlay(m: Memory, n: Memory): (r: Memory) {
    Put(m, n[..32], n[SREG], n[SP_LO], n[SP_HI])
  }

  function Narrow(pc: u32): (r: u32) {
    pc % 0x40_0000
  }

  /** Setting registers from what getting them produced: the three groups come back exactly, and so does the
      program counter reduced to 22 bits, unless it then exceeds the configured width. */
  lemma SetOfGet(m: Memory, n: Memory, pc: u32, pc22: bool)
    ensures SetText(m, pc22, GetText(n, pc))
         == if PcFits(Narrow(pc), pc22) then Some((Overlay(m, n), Narrow(pc))) else None
  {
    hide Scan, ScanRun, HexAll, Registers, PcOf;
    var bs := n[..32] + TailBytes(n, pc);
    RegistersHex(bs, 32);
    ScanHex(bs, 32);
    ScanRunHex(bs, 33, 2);
    ScanRunHex(bs, 35, 4);
    PcRoundTrip(pc);
    assert bs[..32] == n[..32];
    assert bs[33..35] == [n[SP_LO], n[SP_HI]];
    assert bs[35..39] == TailBytes(n, pc)[3..7];
  }

  lemma OverlaySelf(m: Memory)
    ensures Overlay(m, m) == m
  {
    assert m[..32] + m[32..] == m;
  }

  /** The round trip is the identity exactly for program counters within the configured width. */
  lemma RoundTripIff(m: Memory, pc: u32, pc22: bool)
    ensures SetText(m, pc22, GetText(m, pc)) == Some((m, pc)) <==> pc < 0x40_0000 && (pc22 || pc < 0x1_0000)
  {
    hide SetText, GetText, Overlay;
    SetOfGet(m, m, pc, pc22);
    OverlaySelf(m);
  }

  // ----- the handlers -----

  lemma {:induction false} RegistersStay(t: string, k: nat, n: nat)
    requires k <= n && Registers(t, k).None?
    ensures Registers(t, n).None?
  {
    if k < n {
      RegistersStay(t, k, n - 1);
    }
  }

  lemma HexAllSnoc(bs: seq<byte>, b: byte)
    ensures HexAll(bs + [b]) == HexAll(bs) + Hex2(b)
  {
    assert (bs + [b])[..|bs|] == bs;
  }

  lemma HexAllTail(bs: seq<byte>, m: Memory, pc: u32)
    ensures var a := TailBytes(m, pc);
      HexAll(bs + a) == HexAll(bs) + Hex2(a[0]) + Hex2(a[1]) + Hex2(a[2]) + Hex2(a[3]) + Hex2(a[4]) + Hex2(a[5]) + "00"
  {
    hide HexAll, Hex2, TailBytes;
    var a := TailBytes(m, pc);
    HexAllSnoc(bs, a[0]);
    HexAllSnoc(bs + [a[0]], a[1]);
    HexAllSnoc(bs + [a[0]] + [a[1]], a[2]);
    HexAllSnoc(bs + [a[0]] + [a[1]] + [a[2]], a[3]);
    HexAllSnoc(bs + [a[0]] + [a[1]] + [a[2]] + [a[3]], a[4]);
    HexAllSnoc(bs + [a[0]] + [a[1]] + [a[2]] + [a[3]] + [a[4]], a[5]);
    HexAllSnoc(bs + [a[0]] + [a[1]] + [a[2]] + [a[3]] + [a[4]] + [a[5]], a[6]);
    assert bs + a == bs + [a[0]] + [a[1]] + [a[2]] + [a[3]] + [a[4]] + [a[5]] + [a[6]];
    LastIsZero(m, pc);
  }

  lemma LastIsZero(m: Memory, pc: u32)
    ensures Hex2(TailBytes(m, pc)[6]) == "00"
  {
    var zero: byte := 0;
    assert TailBytes(m, pc)[6] == zero;
    assert HexDigit(zero) == '0';
    assert Hex2(zero) == [HexDigit(zero / 16), HexDigit(zero % 16)];
  }

  /** gdb_getregs: the reply it sends. */
  method GetRegs(mc: Machine) returns (buf: string)
    requires mc.Valid()
    ensures buf == GetText(mc.Mem(), mc.pc)
  {
    hide HexAll, Hex2;
    buf := "";
    var i := 0;
    assert buf == HexAll(mc.memory[..0]) by {
      HexAllEmpty();
    }
    while i < 32
      invariant i <= 32 && buf == HexAll(mc.memory[..i])
    {
      HexAllSnoc(mc.memory[..i], mc.memory[i]);
      assert mc.memory[..i + 1] == mc.memory[..i] + [mc.memory[i]];
      buf := buf + Hex2(mc.memory[i]);
      i := i + 1;
    }
    assert mc.memory[..32] == mc.Mem()[..32];
    HexAllTail(mc.memory[..32], mc.Mem(), mc.pc);
    buf := buf + Hex2(mc.memory[SREG]);
    buf := buf + Hex2(mc.memory[SP_LO]) + Hex2(mc.memory[SP_HI]);
    buf := buf + Hex2(2 * mc.pc % 256) + Hex2(mc.pc / 128 % 256) + Hex2(mc.pc / 0x8000 % 128) + "00";
  }

  lemma HexAllEmpty()
    ensures HexAll([]) == ""
  {
  }

  /** gdb_setregs on the text after the letter G; it returns false where an assertion ends the process. */
  method SetRegs(mc: Machine, t: string) returns (ok: bool)
    requires mc.Valid()
    modifies mc`pc, mc.memory
    ensures var r := SetText(old(mc.Mem()), mc.pc22, t);
      ok == r.Some? && (ok ==> mc.Mem() == r.value.0 && mc.pc == r.value.1)
  {
    hide Scan, ScanRun, PcOf;
    var i, p := 0, 0;
    while i < 32
      invariant i <= 32 && p == 2 * i && Registers(t, i) == Some(mc.memory[..i])
      invariant forall j | i <= j < mc.memory.Length :: mc.memory[j] == old(mc.memory[j])
    {
      var reg := Scan(t, p);
      if reg.None? {
        RegistersStay(t, i + 1, 32);
        return false;
      }
      mc.memory[i] := reg.value.0;
      p := p + 2;
      i := i + 1;
      assert mc.memory[..i] == mc.memory[..i - 1] + [reg.value.0];
    }
    assert mc.Mem() == mc.memory[..32] + old(mc.Mem())[32..];
    var sreg := Scan(t, p);
    if sreg.None? {
      return false;
    }
    mc.memory[SREG] := sreg.value.0;
    p := p + 2;
    var sp := ScanRun(t, p, 2);
    if sp.None? {
      return false;
    }
    mc.memory[SP_LO] := sp.value[0];
    mc.memory[SP_HI] := sp.value[1];
    p := p + 4;
    var b := ScanRun(t, p, 4);
    if b.None? {
      return false;
    }
    mc.pc := PcOf(b.value[0], b.value[1], b.value[2], b.value[3]);
    ok := PcFits(mc.pc, mc.pc22);
  }
}
