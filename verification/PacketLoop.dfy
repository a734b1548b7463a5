/**
 The packet reader as the stub runs it: a fixed buffer of received characters,
 a moving pointer, and handlers that change global flags.  Proved against
 `PacketTurns`.
 */
module PacketLoop {
  import opened Bytes
  import opened Isa
  import opened Cpu
  import opened RegisterText
  import opened Framing
  import opened Packets
  import opened PacketTurns

  const PKT_BUF_MAX := 0x2000
  const SEND_BUF := 4096

  /** The checksum from position i on, in terms of the one from i + 1 on. */
  lemma CksumStep(s: string, i: nat)
    requires i <= |s|
    ensures i == |s| || s[i] == NUL ==> Cksum(s[i..]) == 0
    ensures i < |s| && s[i] != NUL ==> Cksum(s[i..]) == (s[i] as int + Cksum(s[i + 1..]) as int) % 256
  {
    hide Cut, Total;
    if i < |s| {
      assert s[i..][0] == s[i] && s[i..][1..] == s[i + 1..];
      ConsSum(s[i..]);
    } else {
      assert s[i..] == "";
      EmptySum();
    }
  }

  lemma EmptySum()
    ensures Cksum("") == 0
  {
  }

  lemma SumStep(sum: byte, c: int, tail: byte)
    ensures (sum as int + (c + tail as int) % 256) % 256 == ((sum as int + c) % 256 + tail as int) % 256
  {
  }

  /** gdb_cksum: stops at the length or at a NUL. */
  method Checksum(s: string) returns (sum: byte)
    ensures sum == Cksum(s)
  {
    hide Cksum;
    sum := 0;
    var i := 0;
    assert s[0..] == s;
    while i < |s| && s[i] != NUL
      invariant i <= |s| && Cksum(s) == (sum as int + Cksum(s[i..]) as int) % 256
    {
      CksumStep(s, i);
      SumStep(sum, s[i] as int, Cksum(s[i + 1..]));
      sum := (sum as int + s[i] as int) % 256;
      i := i + 1;
    }
    CksumStep(s, i);
  }

  /** gdb_sendstr on a C string: the frame, when it and its terminator fit the buffer; one character longer and the
      last digit goes out as a NUL; None where the send would run past the end of the buffer. */
  method SendStr(s: string) returns (r: Option<string>)
    requires NUL !in s
    ensures var n := |s| + 4;
      r == if n < SEND_BUF then Some(Frame(s)) else if n == SEND_BUF then Some(Frame(s)[..n - 1] + [NUL]) else None
  {
    hide Cut, Cksum, Hex2;
    CutWhole(s);
    var chk := Checksum(s);
    var t := "$" + s + "#" + Hex2(chk);
    if |t| > SEND_BUF {
      return None;
    }
    r := Some(if |t| < SEND_BUF then t else t[..SEND_BUF - 1] + [NUL]);
  }

  /** The search of the dispatch table. */
  method Search(table: seq<Verb>, c: string) returns (r: Option<Verb>)
    ensures r == Find(table, c)
  {
    hide Name;
    var i := 0;
    while i < |table|
      invariant i <= |table| && Find(table, c) == Find(table[i..], c)
    {
      if Name(table[i]) <= c {
        return Some(table[i]);
      }
      assert table[i..][1..] == table[i + 1..];
      i := i + 1;
    }
    r := None;
  }

  /** memchr finds the '#' that `Pound` names. */
  lemma PoundIs(t: string, k: nat)
    requires k <= |t| && (k < |t| ==> t[k] == '#') && forall j | 0 <= j < k :: t[j] != '#'
    ensures Pound(t) == k
  {
  }

  lemma Slice(buf: string, i: nat, j: nat, k: nat)
    requires j <= k && i + k <= |buf|
    ensures buf[i..][j..k] == buf[i + j..i + k] == buf[i..i + k][j..]
  {
  }

  lemma SameTail(buf: string, now: string, bp: nat, pound: nat, ep: nat)
    requires bp <= pound && pound + 3 <= ep <= |buf| == |now| && now[pound + 1..] == buf[pound + 1..]
    ensures now[pound + 3..ep] == buf[bp..ep][pound - bp + 3..]
  {
    Slice(now, pound + 1, 2, ep - pound - 1);
    Slice(buf, pound + 1, 2, ep - pound - 1);
    Slice(buf, bp, pound - bp + 3, ep - bp);
  }

  class Stub {
    const clientbuf: array<char>
    var cblen: nat
    var execute: bool
    var stepone: bool
    var replayMode: bool
    var replayLim: nat
    var breakpoints: set<u32>
    var insns: nat
    var acks: string
    var calls: seq<Request>

    ghost predicate Valid()
      reads this
    {
      clientbuf.Length == PKT_BUF_MAX && cblen <= PKT_BUF_MAX
    }

    ghost function Abs(): Link
      reads this
    {
      Link(execute, stepone, replayMode, replayLim, breakpoints, acks, calls)
    }

    /** gdb_step, gdb_bstep, the breakpoint handlers and the resume flag; other handlers leave these fields alone. */
    method Run(v: Verb, c: string)
      modifies `execute, `stepone, `replayMode, `replayLim, `breakpoints
      ensures Abs() == Handle(v, c, insns, old(Abs()))
    {
      hide HexRun, HexNumber;
      execute := Resumes(v);
      if v.StepForward? {
        stepone := true;
      } else if v.StepBack? {
        if insns > 0 {
          replayMode := true;
          replayLim := insns - 1;
        } else {
          execute := false;
        }
      } else if v.AddBreakpoint? || v.RemBreakpoint? {
        var addr := BreakAddr(c);
        if addr.Some? {
          breakpoints := if v.AddBreakpoint? then breakpoints + {addr.value} else breakpoints - {addr.value};
        }
      }
    }

    /** gdb_cmd on the packet from c, whose data ends at pound. */
    method Cmd(c: nat, pound: nat)
      requires Valid() && c < pound && pound + 2 < clientbuf.Length
      requires Whole(Packet(clientbuf[c], clientbuf[c + 1..pound], clientbuf[pound + 1], clientbuf[pound + 2]))
      modifies `execute, `stepone, `replayMode, `replayLim, `breakpoints, `acks, `calls, clientbuf
      ensures var buf := old(clientbuf[..]);
        && Abs() == Deliver(Packet(buf[c], buf[c + 1..pound], buf[pound + 1], buf[pound + 2]), insns, old(Abs()))
        && clientbuf[pound + 1..] == buf[pound + 1..]
    {
      hide Cut, Cksum, Find, Handle;
      var data := clientbuf[c + 1..pound];
      var sum := Checksum(data);
      var sent := Digits(clientbuf[pound + 1], clientbuf[pound + 2]);
      if sum != sent {
        acks := acks + "-";
        return;
      }
      acks := acks + "+";
      clientbuf[pound] := NUL;
      if clientbuf[c] != '$' {
        return;
      }
      var text := Cut(data);
      var d := Search(DISPATCH, text);
      calls := calls + [Request(d, text)];
      if d.Some? {
        Run(d.value, text);
      }
    }

    /** memchr for '#'; ep when there is none. */
    method Memchr(bp: nat, ep: nat) returns (k: nat)
      requires bp <= ep <= clientbuf.Length
      ensures bp <= k <= ep && (k < ep ==> clientbuf[k] == '#') && forall j | bp <= j < k :: clientbuf[j] != '#'
    {
      k := bp;
      while k < ep && clientbuf[k] != '#'
        invariant bp <= k <= ep && forall j | bp <= j < k :: clientbuf[j] != '#'
      {
        k := k + 1;
      }
    }

    /** One turn of the loop at bp. */
    method Turn(bp: nat, ep: nat) returns (next: nat, e: Option<Ending>)
      requires Valid() && bp <= ep <= PKT_BUF_MAX
      modifies `execute, `stepone, `replayMode, `replayLim, `breakpoints, `acks, `calls, clientbuf
      ensures bp <= next <= ep
      ensures var t := old(clientbuf[..])[bp..ep];
        && (Partial(t) ==> next == bp && clientbuf[..] == old(clientbuf[..]))
        && match PacketTurns.Turn(t, insns, old(Abs()))
           case Going(u, y) => e.None? && clientbuf[..][next..ep] == u && Abs() == y
           case Left(why, u, y) => e == Some(why) && clientbuf[..][next..ep] == u && Abs() == y
    {
      hide Deliver, Pound, IsHex;
      ghost var buf := clientbuf[..];
      ghost var t := buf[bp..ep];
      next, e := bp, None;
      if bp >= ep {
        e := Some(Drained);
        return;
      }
      assert forall j | 0 <= j < |t| :: t[j] == clientbuf[bp + j];
      if clientbuf[bp] == '+' || clientbuf[bp] == '-' {
        next := bp + 1;
        Slice(buf, bp, 1, ep - bp);
        return;
      }
      var pound := Memchr(bp, ep);
      PoundIs(t, pound - bp);
      if pound + 2 >= ep {
        return;
      }
      if pound == bp || !IsHex(clientbuf[pound + 1]) {
        e := Some(if pound == bp then Overrun else Refused);
        return;
      }
      assert buf[bp + 1..pound] == t[1..pound - bp];
      Cmd(bp, pound);
      next := pound + 3;
      assert clientbuf[pound + 1..] == clientbuf[..][pound + 1..] == buf[pound + 1..];
      SameTail(buf, clientbuf[..], bp, pound, ep);
      if execute {
        e := Some(Resumed);
      }
    }

    /** The processing half of gdbstub_interactive, stopped after at most n turns: every prefix of its loop, on any
        buffer.  A read beyond the buffer and a failed assertion are reported. */
    method Process(n: nat) returns (e: Option<Ending>)
      requires Valid()
      modifies this, clientbuf
      ensures Valid() && insns == old(insns)
      ensures match Turns(old(clientbuf[..cblen]), insns, old(Abs()), n)
        case Going(_, y) => e.None? && Abs() == y
        case Left(why, u, y) =>
          e == Some(why) && Abs() == y && (why.Drained? || why.Resumed? ==> clientbuf[..cblen] == u)
    {
      hide PacketTurns.Turn;
      var bp, ep, i := 0, cblen, 0;
      ghost var t := clientbuf[..cblen];
      e := None;
      assert clientbuf[..][0..ep] == t;
      while i < n && e.None?
        invariant Valid() && bp <= ep <= PKT_BUF_MAX && i <= n && insns == old(insns)
        invariant match Turns(t, insns, old(Abs()), i)
          case Going(u, y) => e.None? && clientbuf[..][bp..ep] == u && Abs() == y
          case Left(why, u, y) => e == Some(why) && clientbuf[..][bp..ep] == u && Abs() == y
      {
        bp, e := Turn(bp, ep);
        i := i + 1;
      }
      if e.Some? {
        LeftStays(t, insns, old(Abs()), i, n);
        ghost var left := clientbuf[..][bp..ep];
        cblen := ep - bp;
        forall j | 0 <= j < cblen {
          clientbuf[j] := clientbuf[bp + j];
        }
        assert clientbuf[..cblen] == left;
      }
    }
  }
}
