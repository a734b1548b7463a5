/**
 The packet loop turn by turn, as the source has it.

 `while (bp < ep)` reads an item, or stops, or, on a packet that has not arrived
 in full, does nothing and goes round again.  `NeverEndsIff` says when it does so
 for ever.  The receiving loop around it is `Feed`.
 */
module PacketTurns {
  import opened RegisterText
  import opened Framing
  import opened Packets

  /** How the loop is left: the text is used up, a packet resumes execution, a packet that starts with '#' has its
      checksum taken over a length of minus one, or a checksum that is no number fails an assertion. */
  datatype Ending = Drained | Resumed | Overrun | Refused

  /** The unread text and the link, while the loop goes on or once it is left. */
  datatype Place = Going(t: string, x: Link) | Left(e: Ending, t: string, x: Link)

  /** One evaluation of the loop's condition and, if it holds, of its body. */
  function Turn(t: string, insns: nat, x: Link): (p: Place) {
    if t == "" then Left(Drained, t, x)
    else if IsAck(t[0]) then Going(t[1..], x)
    else if Pound(t) + 2 >= |t| then Going(t, x)
    else if t[0] == '#' then Left(Overrun, t, x)
    else if !IsHex(t[Pound(t) + 1]) then Left(Refused, t, x)
    else
      var k := Pound(t);
      var y := Deliver(Packet(t[0], t[1..k], t[k + 1], t[k + 2]), insns, x);
      if y.execute then Left(Resumed, t[k + 3..], y) else Going(t[k + 3..], y)
  }

  function Turns(t: string, insns: nat, x: Link, n: nat): (p: Place) {
    if n == 0 then Going(t, x)
    else
      match Turns(t, insns, x, n - 1)
      case Going(u, y) => Turn(u, insns, y)
      case Left(e, u, y) => Left(e, u, y)
  }

  lemma {:induction false} TurnsFirst(t: string, insns: nat, x: Link, n: nat)
    requires n > 0
    ensures Turns(t, insns, x, n)
         == match Turn(t, insns, x) case Going(u, y) => Turns(u, insns, y, n - 1) case Left(e, u, y) => Left(e, u, y)
  {
    hide Turn;
    if n > 1 {
      TurnsFirst(t, insns, x, n - 1);
    } else {
      assert Turns(t, insns, x, 0) == Going(t, x);
    }
  }

  lemma {:induction false} LeftStays(t: string, insns: nat, x: Link, n: nat, m: nat)
    requires n <= m && Turns(t, insns, x, n).Left?
    ensures Turns(t, insns, x, m) == Turns(t, insns, x, n)
  {
    hide Turn;
    if n < m {
      LeftStays(t, insns, x, n, m - 1);
    }
  }

  /** The first turn on a text, in terms of its items. */
  lemma TurnParses(t: string, insns: nat, x: Link)
    ensures var (xs, more) := Parse(t);
      match Turn(t, insns, x)
      case Left(e, u, y) =>
        if e.Resumed? then
          && xs != [] && xs[0].Packet? && y == Deliver(xs[0], insns, x) && y.execute
          && |u| < |t| && Parse(u) == (xs[1..], more)
        else xs == [] && u == t == more && y == x && !Partial(more) && e == EndOf(more)
      case Going(u, y) =>
        if xs == [] then u == t == more && y == x && Partial(more)
        else
          && |u| < |t| && Parse(u) == (xs[1..], more)
          && (if xs[0].Ack? then y == x else y == Deliver(xs[0], insns, x) && !y.execute)
  {
    hide Pound, Deliver, IsHex;
  }

  /** How the loop ends when nothing more can be read and the text is not an incomplete packet. */
  function EndOf(more: string): (e: Ending) {
    if more == "" then Drained else if more[0] == '#' then Overrun else Refused
  }

  /** The items read, one per turn, until one resumes execution. */
  lemma {:induction false} TurnsServe(t: string, insns: nat, x: Link, n: nat)
    requires !x.execute && n > |t|
    ensures var (xs, more) := Parse(t);
      var (y, rest) := Serve(xs, insns, x);
      var p := Turns(t, insns, x, n);
      if y.execute then p.Left? && p.e == Resumed && p.x == y && Parse(p.t) == (rest, more)
      else if Partial(more) then p == Going(more, y)
      else p == Left(EndOf(more), more, y)
    decreases |t|, n
  {
    hide Turn, Parse, Deliver, Partial, EndOf, Whole;
    TurnParses(t, insns, x);
    TurnsFirst(t, insns, x, n);
    var (xs, more) := Parse(t);
    var p := Turn(t, insns, x);
    if p.Going? {
      if xs == [] {
        Stuck(t, insns, x, n - 1);
      } else {
        TurnsServe(p.t, insns, p.x, n - 1);
      }
    }
  }

  lemma StuckTurn(t: string, insns: nat, x: Link)
    requires Partial(t)
    ensures Turn(t, insns, x) == Going(t, x)
  {
    hide Pound, Deliver, IsHex;
  }

  /** An incomplete packet is looked at again and again. */
  lemma {:induction false} Stuck(t: string, insns: nat, x: Link, n: nat)
    requires Partial(t)
    ensures Turns(t, insns, x, n) == Going(t, x)
  {
    hide Turn, Partial;
    if n > 0 {
      Stuck(t, insns, x, n - 1);
      StuckTurn(t, insns, x);
    }
  }

  lemma NoneResumes(xs: seq<Item>, insns: nat, x: Link)
    requires AllWhole(xs) && !x.execute
    ensures Serve(xs, insns, x).0.execute <==> exists k :: 0 <= k < |xs| && ResumingItem(xs[k], insns)
  {
    hide Serve, ResumingItem, ReadTo;
    ServeExact(xs, insns, x);
  }

  /** The loop never ends exactly when no packet in the buffer resumes execution and the last one is incomplete. */
  lemma NeverEndsIff(t: string, insns: nat, x: Link)
    requires !x.execute
    ensures (forall n: nat :: Turns(t, insns, x, n).Going?)
       <==> Partial(Parse(t).1) && forall k | 0 <= k < |Parse(t).0| :: !ResumingItem(Parse(t).0[k], insns)
  {
    hide Turns, Parse, Serve, ResumingItem, Partial;
    var (xs, more) := Parse(t);
    NoneResumes(xs, insns, x);
    TurnsServe(t, insns, x, |t| + 1);
    if Partial(more) && !Serve(xs, insns, x).0.execute {
      forall n: nat
        ensures Turns(t, insns, x, n).Going?
      {
        TurnsServe(t, insns, x, |t| + 1 + n);
        if Turns(t, insns, x, n).Left? {
          LeftStays(t, insns, x, n, |t| + 1 + n);
        }
      }
    }
  }

  /** Otherwise it is left within |t| + 1 turns, with the packets served up to the first that resumes execution and
      precisely the unread text kept. */
  lemma EndsWithin(t: string, insns: nat, x: Link)
    requires !x.execute && exists n: nat :: Turns(t, insns, x, n).Left?
    ensures var (xs, more) := Parse(t);
      var (y, rest) := Serve(xs, insns, x);
      Turns(t, insns, x, |t| + 1) == Left(if y.execute then Resumed else EndOf(more), Stream(rest) + more, y)
  {
    hide Turns, Parse, Serve, Partial, EndOf, Stream;
    var (xs, more) := Parse(t);
    var (y, rest) := Serve(xs, insns, x);
    var p := Turns(t, insns, x, |t| + 1);
    TurnsServe(t, insns, x, |t| + 1);
    if y.execute {
      ParseText(p.t);
    } else {
      if Partial(more) {
        var n: nat :| Turns(t, insns, x, n).Left?;
        TurnsServe(t, insns, x, |t| + 1 + n);
        LeftStays(t, insns, x, n, |t| + 1 + n);
      }
      NothingUnread(xs, insns, x);
    }
  }

  lemma {:induction false} NothingUnread(xs: seq<Item>, insns: nat, x: Link)
    requires AllWhole(xs)
    ensures !Serve(xs, insns, x).0.execute ==> Serve(xs, insns, x).1 == [] && Stream([]) == ""
  {
    hide Deliver, Whole;
    if xs != [] {
      NothingUnread(xs[1..], insns, if xs[0].Ack? then x else Deliver(xs[0], insns, x));
    }
  }

  /** "$g", the start of a request for the registers, is such a buffer: its checksum has not arrived. */
  lemma HalfRequestSpins(insns: nat, x: Link, n: nat)
    ensures Turns("$g", insns, x, n) == Going("$g", x)
  {
    var t := "$g";
    assert t[0] == '$' && t[1] == 'g';
    assert Pound(t) >= 1;
    assert Partial(t);
    Stuck(t, insns, x, n);
  }

  // ----- receiving piece by piece -----

  lemma {:induction false} ParsePrefix(xs: seq<Item>, t: string)
    requires AllWhole(xs)
    ensures Parse(Stream(xs) + t) == (xs + Parse(t).0, Parse(t).1)
  {
    hide Text, Parse;
    if xs == [] {
      assert Stream(xs) + t == t && xs + Parse(t).0 == Parse(t).0;
    } else {
      assert Stream(xs) + t == Text(xs[0]) + (Stream(xs[1..]) + t);
      ParsePrefix(xs[1..], t);
      ParseItem(xs[0], Stream(xs[1..]) + t);
      assert [xs[0]] + (xs[1..] + Parse(t).0) == xs + Parse(t).0;
    }
  }

  lemma {:induction false} ServePrefix(xs: seq<Item>, ys: seq<Item>, insns: nat, x: Link)
    requires AllWhole(xs) && AllWhole(ys) && !x.execute
    ensures AllWhole(xs + ys)
    ensures var (y, rest) := Serve(xs, insns, x);
      Serve(xs + ys, insns, x) == if y.execute then (y, rest + ys) else Serve(ys, insns, y)
  {
    hide Deliver, Whole;
    if xs == [] {
      assert xs + ys == ys;
    } else {
      assert (xs + ys)[1..] == xs[1..] + ys && (xs + ys)[0] == xs[0];
      var y := if xs[0].Ack? then x else Deliver(xs[0], insns, x);
      if !y.execute {
        ServePrefix(xs[1..], ys, insns, y);
      }
    }
  }

  lemma Assoc(a: string, b: string, c: string)
    ensures a + (b + c) == a + b + c
  {
  }

  lemma {:induction false} StreamSum(xs: seq<Item>, ys: seq<Item>)
    ensures Stream(xs + ys) == Stream(xs) + Stream(ys)
  {
    hide Text;
    if xs == [] {
      assert xs + ys == ys;
    } else {
      StreamSum(xs[1..], ys);
      assert (xs + ys)[1..] == xs[1..] + ys && (xs + ys)[0] == xs[0];
      Assoc(Text(xs[0]), Stream(xs[1..]), Stream(ys));
    }
  }

  function Concat(chunks: seq<string>): (t: string) {
    if chunks == [] then "" else chunks[0] + Concat(chunks[1..])
  }

  /** The receiving loop has run out of input, goes on to execute with something unread, or is stuck or has failed. */
  datatype Fed = Waits(x: Link) | Goes(left: string, x: Link, chunks: seq<string>) | Fails

  /** do { receive a chunk behind what is in the buffer; process } while (!execute). */
  function Feed(buf: string, chunks: seq<string>, insns: nat, x: Link): (r: Fed)
    decreases |chunks|
  {
    if chunks == [] then Waits(x)
    else
      var t := buf + chunks[0];
      match Turns(t, insns, x, |t| + 1)
      case Going(_, _) => Fails
      case Left(e, u, y) =>
        match e
        case Drained => Feed(u, chunks[1..], insns, y)
        case Resumed => Goes(u, y, chunks[1..])
        case _ => Fails
  }

  /** What one pass over the buffer does. */
  lemma PassIs(t: string, insns: nat, x: Link)
    requires !x.execute
    ensures var (xs, more) := Parse(t);
      var (y, rest) := Serve(xs, insns, x);
      match Turns(t, insns, x, |t| + 1)
      case Going(_, _) => Partial(more)
      case Left(e, u, z) =>
        && z == y && u == Stream(rest) + more && e == (if y.execute then Resumed else EndOf(more))
        && (!y.execute ==> rest == [])
  {
    hide Turns, Parse, Serve, Partial, EndOf, Stream;
    TurnsServe(t, insns, x, |t| + 1);
    if Turns(t, insns, x, |t| + 1).Left? {
      EndsWithin(t, insns, x);
      NothingUnread(Parse(t).0, insns, x);
    }
  }

  lemma ResumedGroups(t: string, tail: string, insns: nat, x: Link)
    requires !x.execute && Serve(Parse(t).0, insns, x).0.execute
    ensures var (y, rest) := Serve(Parse(t).0, insns, x);
      var (zs, less) := Parse(t + tail);
      Serve(zs, insns, x).0 == y && Stream(rest) + Parse(t).1 + tail == Stream(Serve(zs, insns, x).1) + less
  {
    hide Parse, Serve, Stream;
    var (xs, more) := Parse(t);
    var (ys, less) := Parse(more + tail);
    var (y, rest) := Serve(xs, insns, x);
    ParseText(t);
    assert t + tail == Stream(xs) + (more + tail);
    ParsePrefix(xs, more + tail);
    ServePrefix(xs, ys, insns, x);
    ParseText(more + tail);
    StreamSum(rest, ys);
    assert Stream(rest) + more + tail == Stream(rest) + (more + tail);
    assert Stream(rest) + (Stream(ys) + less) == Stream(rest) + Stream(ys) + less;
  }

  lemma DrainedGroups(t: string, tail: string, insns: nat, x: Link)
    requires !x.execute && !Serve(Parse(t).0, insns, x).0.execute && Parse(t).1 == ""
    ensures var y := Serve(Parse(t).0, insns, x).0;
      && Parse(t + tail).1 == Parse(tail).1
      && Serve(Parse(t + tail).0, insns, x) == Serve(Parse(tail).0, insns, y)
  {
    hide Parse, Serve, Stream;
    var xs := Parse(t).0;
    ParseText(t);
    assert t == Stream(xs);
    ParsePrefix(xs, tail);
    ServePrefix(xs, Parse(tail).0, insns, x);
  }

  /** However the stream is cut into receives: unless a pass gets stuck or fails, the commands served, the link and the
      text still unread are those of the whole stream. */
  lemma {:induction false} FeedIsServe(buf: string, chunks: seq<string>, insns: nat, x: Link)
    requires !x.execute && (chunks == [] ==> buf == "")
    ensures var (xs, more) := Parse(buf + Concat(chunks));
      var (y, rest) := Serve(xs, insns, x);
      match Feed(buf, chunks, insns, x)
      case Waits(z) => z == y && !y.execute && more == ""
      case Goes(u, z, cs) => z == y && y.execute && u + Concat(cs) == Stream(rest) + more
      case Fails => true
    decreases |chunks|
  {
    hide Turns, Parse, Serve, Partial, Stream;
    if chunks == [] {
      assert buf + Concat(chunks) == "";
      EmptyStream(insns, x);
      return;
    }
    var t, tail := buf + chunks[0], Concat(chunks[1..]);
    assert buf + Concat(chunks) == t + tail;
    PassIs(t, insns, x);
    var p := Turns(t, insns, x, |t| + 1);
    if p.Left? && p.e.Resumed? {
      ResumedGroups(t, tail, insns, x);
    } else if p.Left? && p.e.Drained? {
      StreamNone();
      DrainedGroups(t, tail, insns, x);
      assert p.t == "" && p.t + tail == tail;
      FeedIsServe(p.t, chunks[1..], insns, p.x);
    }
  }

  lemma EmptyStream(insns: nat, x: Link)
    ensures Parse("") == ([], "") && Serve([], insns, x) == (x, [])
  {
  }

  /** Receives that hold whole packets never get stuck. */
  lemma {:induction false} WholeReceives(xss: seq<seq<Item>>, chunks: seq<string>, insns: nat, x: Link)
    requires !x.execute && |xss| == |chunks|
    requires forall k | 0 <= k < |xss| :: AllWhole(xss[k]) && chunks[k] == Stream(xss[k])
    ensures !Feed("", chunks, insns, x).Fails?
    decreases |chunks|
  {
    hide Turns, Parse, Serve, AllWhole, Stream;
    if chunks != [] {
      var t := "" + chunks[0];
      assert t == Stream(xss[0]) + "";
      EmptyStream(insns, x);
      BlockedNone();
      ParseStream(xss[0], "");
      PassIs(t, insns, x);
      StreamNone();
      var p := Turns(t, insns, x, |t| + 1);
      if p.Left? && p.e.Drained? {
        WholeReceives(xss[1..], chunks[1..], insns, p.x);
      }
    }
  }

  lemma BlockedNone()
    ensures Blocked("") && !Partial("")
  {
  }
}
