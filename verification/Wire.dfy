/**
 The texts that go over the wire, spelled out: hex digits, command names,
 breakpoint addresses, the reply to `g` position by position, and packets with
 their checksums.

 `WireScript` is the main result: the commands of a debugger, written as GDB
 writes them and framed, are the commands the stub carries out.
 */
module Wire {
  import opened Bytes
  import opened Isa
  import opened Cpu
  import opened Debugger
  import opened RegisterText
  import opened Framing
  import opened Packets
  import opened PacketSession

  const LOWER := "0123456789abcdef"
  const UPPER := "0123456789ABCDEF"

  // ----- hex digits -----

  /** Hex digits are written in lower case and read in either. */
  lemma DigitLaw(v: nat)
    requires v < 16
    ensures HexDigit(v) == LOWER[v]
    ensures IsHex(LOWER[v]) && HexVal(LOWER[v]) == v && IsHex(UPPER[v]) && HexVal(UPPER[v]) == v
  {
  }

  lemma HexIff(c: char)
    ensures IsHex(c) <==> c in LOWER || c in UPPER
  {
    if '0' <= c <= '9' {
      assert c == LOWER[c as int - '0' as int];
    } else if 'a' <= c <= 'f' {
      assert c == LOWER[c as int - 'a' as int + 10];
    } else if 'A' <= c <= 'F' {
      assert c == UPPER[c as int - 'A' as int + 10];
    }
  }

  /** A byte as two digits. */
  function TwoDigits(b: byte): (t: string) {
    [LOWER[b / 16], LOWER[b % 16]]
  }

  lemma Hex2Law(b: byte)
    ensures Hex2(b) == TwoDigits(b)
  {
    DigitLaw(b / 16);
    DigitLaw(b % 16);
  }

  /** A number as printf("%x") writes it. */
  function HexText(a: nat): (t: string)
    ensures |t| > 0
  {
    if a < 16 then [LOWER[a]] else HexText(a / 16) + [LOWER[a % 16]]
  }

  /** Digits, and then something that is none. */
  predicate Terminated(more: string) {
    more == "" || (more[0] !in LOWER && more[0] !in UPPER)
  }

  lemma {:induction false} HexTextDigits(a: nat)
    ensures forall k | 0 <= k < |HexText(a)| :: IsHex(HexText(a)[k])
  {
    if a >= 16 {
      HexTextDigits(a / 16);
    }
    DigitLaw(a % 16);
  }

  lemma {:induction false} HexRunIs(t: string, n: nat)
    requires n <= |t| && (forall k | 0 <= k < n :: IsHex(t[k])) && (n < |t| ==> !IsHex(t[n]))
    ensures HexRun(t) == n
  {
    if n > 0 {
      HexRunIs(t[1..], n - 1);
    }
  }

  lemma {:induction false} HexNumberIs(a: nat, more: string)
    requires forall k | 0 <= k < |HexText(a)| :: IsHex(HexText(a)[k])
    ensures HexNumber(HexText(a) + more, |HexText(a)|) == a
    decreases a
  {
    hide IsHex, HexVal, HexText, HexNumber;
    HexTextIs(a);
    if a >= 16 {
      var h, c := HexText(a / 16), [LOWER[a % 16]];
      HexTextDigits(a / 16);
      HexNumberIs(a / 16, c + more);
      assert HexText(a) + more == h + (c + more);
      LastDigit(h + (c + more), |h|, a % 16);
    } else {
      LastDigit(HexText(a) + more, 0, a);
    }
  }

  lemma HexTextIs(a: nat)
    ensures HexText(a) == if a < 16 then [LOWER[a]] else HexText(a / 16) + [LOWER[a % 16]]
  {
  }

  lemma LastDigit(t: string, n: nat, v: nat)
    requires n < |t| && (forall k | 0 <= k <= n :: IsHex(t[k])) && v < 16 && t[n] == LOWER[v]
    ensures HexNumber(t, n + 1) == 16 * HexNumber(t, n) + v && HexNumber(t, 0) == 0
  {
    DigitLaw(v);
  }

  // ----- commands -----

  /** What each name dispatches to; a command may go on behind its name. */
  lemma DispatchLaw(more: string)
    ensures Find(DISPATCH, "g" + more) == Some(GetRegisters) && Find(DISPATCH, "G" + more) == Some(SetRegisters)
    ensures Find(DISPATCH, "m" + more) == Some(ReadMem) && Find(DISPATCH, "M" + more) == Some(WriteMem)
    ensures Find(DISPATCH, "Z0" + more) == Some(AddBreakpoint) && Find(DISPATCH, "z0" + more) == Some(RemBreakpoint)
    ensures Find(DISPATCH, "qAttached" + more) == Some(Attached)
    ensures Find(DISPATCH, "qSupported" + more) == Some(Supported)
    ensures Find(DISPATCH, "?" + more) == Some(Why)
    ensures Find(DISPATCH, "Hg" + more) == Some(HGeneral) && Find(DISPATCH, "Hc" + more) == Some(HContinue)
    ensures Find(DISPATCH, "c" + more) == Some(Go) && Find(DISPATCH, "s" + more) == Some(StepForward)
    ensures Find(DISPATCH, "bs" + more) == Some(StepBack)
  {
    hide Find;
    FindIs("g" + more, GetRegisters);
    FindIs("G" + more, SetRegisters);
    FindIs("m" + more, ReadMem);
    FindIs("M" + more, WriteMem);
    FindIs("Z0" + more, AddBreakpoint);
    FindIs("z0" + more, RemBreakpoint);
    FindIs("qAttached" + more, Attached);
    FindIs("qSupported" + more, Supported);
    FindIs("?" + more, Why);
    FindIs("Hg" + more, HGeneral);
    FindIs("Hc" + more, HContinue);
    FindIs("c" + more, Go);
    FindIs("s" + more, StepForward);
    FindIs("bs" + more, StepBack);
  }

  /** The address of `Z0` and `z0` is the number in hex digits behind the comma. */
  lemma BreakAddrLaw(a: u32, name: string, more: string)
    requires |name| == 2 && Terminated(more)
    ensures BreakAddr(name + "," + HexText(a) + more) == Some(a)
  {
    hide HexNumber, HexRun, IsHex;
    var t, n := HexText(a) + more, |HexText(a)|;
    var c := name + "," + HexText(a) + more;
    assert c[3..] == t && c[2] == ',';
    HexTextDigits(a);
    if more != "" {
      assert t[n] == more[0];
      HexIff(more[0]);
    }
    HexRunIs(t, n);
    HexNumberIs(a, more);
  }

  /** How GDB writes a command; the 2 is the length of an AVR instruction. */
  function Written(c: Command): (t: string) {
    match c
    case StepOne => "s"
    case BackStep => "bs"
    case Continue => "c"
    case Inspect => "g"
    case AddBreak(a) => "Z0," + HexText(a) + ",2"
    case RemoveBreak(a) => "z0," + HexText(a) + ",2"
  }

  function WrittenAll(cs: seq<Command>): (ts: seq<string>)
    ensures |ts| == |cs| && forall k | 0 <= k < |cs| :: ts[k] == Written(cs[k])
  {
    if cs == [] then [] else [Written(cs[0])] + WrittenAll(cs[1..])
  }

  lemma WrittenClean(c: Command)
    ensures '#' !in Written(c) && NUL !in Written(c)
  {
    hide HexText;
    if c.AddBreak? || c.RemoveBreak? {
      HexTextDigits(c.addr);
      HexClean(HexText(c.addr));
    }
  }

  lemma HexClean(t: string)
    requires forall k | 0 <= k < |t| :: IsHex(t[k])
    ensures '#' !in t && NUL !in t
  {
  }

  lemma AddMeans(a: u32)
    ensures AsCommand(Written(AddBreak(a))) == Some(AddBreak(a))
  {
    hide HexText, Find, BreakAddr;
    var c := Written(AddBreak(a));
    BreakAddrLaw(a, "Z0", ",2");
    assert c == "Z0" + "," + HexText(a) + ",2";
    assert "Z0" <= c;
    FindIs(c, AddBreakpoint);
  }

  lemma RemoveMeans(a: u32)
    ensures AsCommand(Written(RemoveBreak(a))) == Some(RemoveBreak(a))
  {
    hide HexText, Find, BreakAddr;
    var c := Written(RemoveBreak(a));
    BreakAddrLaw(a, "z0", ",2");
    assert c == "z0" + "," + HexText(a) + ",2";
    assert "z0" <= c;
    FindIs(c, RemBreakpoint);
  }

  /** A written command is understood. */
  lemma WrittenMeans(c: Command)
    ensures AsCommand(Written(c)) == Some(c)
  {
    hide HexText, Find, BreakAddr;
    match c
    case AddBreak(a) => AddMeans(a);
    case RemoveBreak(a) => RemoveMeans(a);
    case StepOne => FindIs("s", StepForward);
    case BackStep => FindIs("bs", StepBack);
    case Continue => FindIs("c", Go);
    case Inspect => FindIs("g", GetRegisters);
  }

  /** Any list of debugger commands, written out and framed, is whole packets that stand for exactly those commands. */
  lemma {:induction false} WireScript(cs: seq<Command>)
    ensures var xs := FrameAll(WrittenAll(cs)); AllWhole(xs) && Plain(xs) && Script(xs) == cs
  {
    hide Written, AsCommand, Framed, Intact, Whole;
    if cs != [] {
      var x, rest := Framed(Written(cs[0])), FrameAll(WrittenAll(cs[1..]));
      WireScript(cs[1..]);
      WrittenClean(cs[0]);
      FrameCarries(Written(cs[0]));
      WrittenMeans(cs[0]);
      assert WrittenAll(cs)[1..] == WrittenAll(cs[1..]);
      assert FrameAll(WrittenAll(cs)) == [x] + rest;
      ScriptCons(x, rest, cs[0]);
    }
  }

  lemma ScriptCons(x: Item, rest: seq<Item>, c: Command)
    requires Whole(x) && AllWhole(rest) && Plain(rest) && CommandIn(x) != [] && AsCommand(CommandIn(x)[0]) == Some(c)
    ensures var xs := [x] + rest; AllWhole(xs) && Plain(xs) && Script(xs) == [c] + Script(rest)
  {
    hide AsCommand, Intact, Whole;
    var xs := [x] + rest;
    assert xs[1..] == rest;
    assert Accepted(x) && CommandIn(x)[0] == Cut(x.data);
    forall k | 0 <= k < |xs| && Accepted(xs[k]) ensures AsCommand(Cut(xs[k].data)).Some? {
      if k > 0 {
        assert xs[k] == rest[k - 1];
      }
    }
  }

  /** A session driven by those packets is the session on those commands, at every iteration. */
  lemma WireSession(setup: Setup, m: Memory, cs: seq<Command>, n: nat)
    ensures AllWhole(FrameAll(WrittenAll(cs)))
    ensures var (r, rest) := Iterations(setup, Begin(setup, m, []), FrameAll(WrittenAll(cs)), n);
      Plain(rest) && Loop(setup, Begin(setup, m, cs), n) == WithAll(r, rest)
  {
    hide Iterations, Loop, Script, Plain, WrittenAll, FrameAll;
    WireScript(cs);
    PacketSessionIsLoop(setup, m, FrameAll(WrittenAll(cs)), n);
  }

  // ----- packets and replies -----

  /** A packet is answered with '+' exactly when its digits say the sum of its characters modulo 256, and else with
      '-'. */
  lemma AnswerLaw(lead: char, data: string, sum: byte)
    requires !IsAck(lead) && lead != '#' && '#' !in data && NUL !in data
    ensures var d := TwoDigits(sum);
      var x := Packet(lead, data, d[0], d[1]);
      Whole(x) && Answer(x) == if sum as int == Total(data) % 256 then "+" else "-"
  {
    hide IsHex, HexVal;
    CutWhole(data);
    DigitLaw(sum / 16);
    DigitLaw(sum % 16);
  }

  /** Some packets as they go over the wire. */
  lemma KnownFrames()
    ensures Frame("OK") == "$OK#9a" && Frame("") == "$#00" && Frame("g") == "$g#67" && Frame("S05") == "$S05#b8"
  {
    hide Frame;
    FrameOk();
    FrameShort();
    FrameStop();
  }

  lemma FrameOk()
    ensures Frame("OK") == "$OK#9a"
  {
    hide Hex2, Cut, Total;
    Sum2('O', 'K');
    Hex2Law(0x9a);
  }

  lemma FrameShort()
    ensures Frame("") == "$#00" && Frame("g") == "$g#67"
  {
    hide Hex2;
    Sum1('g');
    Hex2Law(0);
    Hex2Law(0x67);
  }

  lemma FrameStop()
    ensures Frame("S05") == "$S05#b8"
  {
    hide Hex2, Cut, Total;
    Sum3('S', '0', '5');
    Hex2Law(0xb8);
  }

  lemma Sum1(a: char)
    requires a != NUL
    ensures Cut([a]) == [a] && Total([a]) == a as int
  {
    CutWhole([a]);
    assert Total([]) == 0;
  }

  lemma Sum2(a: char, b: char)
    requires a != NUL && b != NUL
    ensures Cut([a, b]) == [a, b] && Total([a, b]) == a as int + b as int
  {
    CutWhole([a, b]);
    Sum1(b);
    assert [a, b][1..] == [b];
  }

  lemma Sum3(a: char, b: char, c: char)
    requires a != NUL && b != NUL && c != NUL
    ensures Cut([a, b, c]) == [a, b, c] && Total([a, b, c]) == a as int + b as int + c as int
  {
    CutWhole([a, b, c]);
    Sum2(b, c);
    assert [a, b, c][1..] == [b, c];
  }

  /** The two characters at place k of a reply. */
  function PairText(t: string, k: nat): (r: string)
    requires 2 * k + 2 <= |t|
  {
    t[2 * k..2 * k + 2]
  }

  /** The reply to `g`: 32 registers, SREG, SP low byte first, and twice the program counter, lowest byte first, of
      which 23 bits are sent. */
  lemma ReplyLaw(m: Memory, pc: u32)
    ensures var t := GetText(m, pc);
      && |t| == 78 && (forall k: nat | k < 32 :: PairText(t, k) == TwoDigits(m[k]))
      && PairText(t, 32) == TwoDigits(m[0x5f]) && PairText(t, 33) == TwoDigits(m[0x5d])
      && PairText(t, 34) == TwoDigits(m[0x5e])
    ensures exists b0: byte, b1: byte, b2: byte ::
      var t := GetText(m, pc);
      && PairText(t, 35) == TwoDigits(b0) && PairText(t, 36) == TwoDigits(b1) && PairText(t, 37) == TwoDigits(b2)
      && PairText(t, 38) == "00"
      && b0 as int + 256 * b1 as int + 0x1_0000 * b2 as int == 2 * (pc % 0x40_0000)
  {
    hide HexAll, Hex2, TwoDigits, TailBytes;
    var a := TailBytes(m, pc);
    var bs := m[..32] + a;
    TailIs(m, pc);
    forall k: nat | k < 39 ensures PairText(HexAll(bs), k) == TwoDigits(bs[k]) {
      HexAllAt(bs, k);
      Hex2Law(bs[k]);
    }
    assert bs[32] == a[0] && bs[33] == a[1] && bs[34] == a[2] && bs[35] == a[3] && bs[36] == a[4] && bs[37] == a[5];
    assert bs[38] == a[6];
    ZeroText();
    PcBytes(pc, a[3], a[4], a[5]);
    assert a[3] as int + 256 * a[4] as int + 0x1_0000 * a[5] as int == 2 * (pc % 0x40_0000);
  }

  lemma ZeroText()
    ensures TwoDigits(0) == "00"
  {
  }

  lemma TailIs(m: Memory, pc: u32)
    ensures TailBytes(m, pc)
         == [m[0x5f], m[0x5d], m[0x5e], 2 * pc % 256, pc / 128 % 256, pc / 0x8000 % 128, 0]
  {
  }

  lemma PcBytes(pc: u32, b0: byte, b1: byte, b2: byte)
    requires b0 == 2 * pc % 256 && b1 == pc / 128 % 256 && b2 == pc / 0x8000 % 128
    ensures b0 as int + 256 * b1 as int + 0x1_0000 * b2 as int == 2 * (pc % 0x40_0000)
  {
    Sevenths(pc);
    ModOf(2 * pc, 256, pc / 128, 2 * (pc % 128));
    ModOf(pc, 0x40_0000, pc / 0x40_0000, pc % 128 + 128 * (pc / 128 % 256) + 0x8000 * (pc / 0x8000 % 128));
  }
}
