/**
 Packets of the GDB remote protocol: framing, checksum, and reading them back.

 Sections "Overview" and "Packets" of the GDB Remote Serial Protocol appendix:
 a packet is `$data#checksum`, the checksum two hex digits holding the sum of
 the data characters modulo 256; `+` and `-` acknowledge a packet.
 */
module Framing {
  import opened Bytes
  import opened RegisterText

  const NUL := '\0'

  /** The C string that starts where s does: s up to its first NUL. */
  function Cut(s: string): (r: string)
    ensures NUL !in r && r <= s && (|r| < |s| ==> s[|r|] == NUL)
  {
    if s == "" || s[0] == NUL then "" else [s[0]] + Cut(s[1..])
  }

  function Total(s: string): (n: nat) {
    if s == "" then 0 else s[0] as int + Total(s[1..])
  }

  /** What the manual calls the checksum, of the data as a C string. */
  function Cksum(s: string): (c: byte) {
    Total(Cut(s)) % 256
  }

  lemma {:induction false} CutWhole(s: string)
    requires NUL !in s
    ensures Cut(s) == s
  {
    if s != "" {
      CutWhole(s[1..]);
    }
  }

  // ----- items of the stream -----

  /** An acknowledgement, or a frame with its lead character and checksum digits. */
  datatype Item = Ack(sign: char) | Packet(lead: char, data: string, hi: char, lo: char)

  predicate IsAck(c: char) {
    c == '+' || c == '-'
  }

  predicate Whole(x: Item) {
    match x
    case Ack(c) => IsAck(c)
    case Packet(lead, data, hi, lo) => !IsAck(lead) && lead != '#' && '#' !in data && IsHex(hi)
  }

  predicate AllWhole(xs: seq<Item>) {
    forall x | x in xs :: Whole(x)
  }

  function Text(x: Item): (t: string)
    ensures |t| >= 1
  {
    match x
    case Ack(c) => [c]
    case Packet(lead, data, hi, lo) => [lead] + data + ['#', hi, lo]
  }

  function Stream(xs: seq<Item>): (t: string) {
    if xs == [] then "" else Text(xs[0]) + Stream(xs[1..])
  }

  /** gdb_sendstr before truncation by its buffer. */
  function Frame(s: string): (t: string) {
    "$" + Cut(s) + "#" + Hex2(Cksum(s))
  }

  function Framed(s: string): (x: Item) {
    var h := Hex2(Cksum(s));
    Packet('$', Cut(s), h[0], h[1])
  }

  /** sscanf("%2x") on the two characters after the '#': the second counts only if it is a digit. */
  function Digits(hi: char, lo: char): (n: byte)
    requires IsHex(hi)
  {
    if IsHex(lo) then 16 * HexVal(hi) + HexVal(lo) else HexVal(hi)
  }

  /** The sum of the data as sent and as received agree. */
  predicate Intact(x: Item)
    requires x.Packet? && Whole(x)
  {
    Digits(x.hi, x.lo) == Cksum(x.data)
  }

  lemma FrameIsPacket(s: string)
    ensures Text(Framed(s)) == Frame(s)
    ensures '#' !in s ==> Whole(Framed(s)) && Intact(Framed(s))
  {
    hide Hex2;
    CutWhole(Cut(s));
  }

  /** Where memchr finds the first '#'. */
  function Pound(t: string): (k: nat)
    ensures k <= |t| && (k < |t| ==> t[k] == '#') && forall j | 0 <= j < k :: t[j] != '#'
  {
    if t == "" || t[0] == '#' then 0 else 1 + Pound(t[1..])
  }

  lemma {:induction false} PoundAt(t: string, k: nat)
    requires k < |t| && t[k] == '#' && '#' !in t[..k]
    ensures Pound(t) == k
  {
    if k > 0 {
      assert t[0] == t[..k][0];
      assert t[1..][..k - 1] == t[..k][1..];
      PoundAt(t[1..], k - 1);
    }
  }

  /** The data the packet reader takes from the front of the text. */
  function Taken(t: string): (r: string) {
    if Pound(t) == 0 then "" else t[1..Pound(t)]
  }

  /** Framing then reading gives a C string back exactly when it holds no '#'. */
  lemma FrameThenTakeIff(s: string, more: string)
    requires NUL !in s
    ensures Taken(Frame(s) + more) == s <==> '#' !in s
  {
    hide Cut, Hex2, Cksum;
    CutWhole(s);
    var t := Frame(s) + more;
    assert t == "$" + s + "#" + (Hex2(Cksum(s)) + more);
    var k := 1 + |s|;
    assert t[1..k] == s;
    if '#' !in s {
      assert t[..k] == "$" + s;
      PoundAt(t, k);
    } else {
      var j :| 0 <= j < |s| && s[j] == '#';
      assert t[1 + j] == '#';
      assert Pound(t) <= 1 + j;
      assert |Taken(t)| < |s|;
    }
  }

  /** Up to the first NUL the sum can be taken in two parts. */
  lemma {:induction false} CutSplit(s: string, k: nat)
    requires k <= |Cut(s)|
    ensures Total(Cut(s)) == Total(s[..k]) + Total(Cut(s[k..]))
  {
    if k == 0 {
      assert s[..0] == "" && s[0..] == s;
    } else {
      CutSplit(s[1..], k - 1);
      assert s[..k][1..] == s[1..][..k - 1] && s[1..][k - 1..] == s[k..];
      assert Cut(s)[1..] == Cut(s[1..]);
    }
  }

  lemma {:induction false} CutShares(s: string, t: string, k: nat)
    requires k <= |s| && k <= |t| && s[..k] == t[..k]
    ensures k <= |Cut(s)| ==> k <= |Cut(t)|
    ensures k > |Cut(s)| ==> Cut(t) == Cut(s)
    decreases |s|
  {
    if k > 0 && s[0] != NUL {
      assert s[0] == s[..k][0] && t[0] == t[..k][0];
      assert s[1..][..k - 1] == s[..k][1..] && t[1..][..k - 1] == t[..k][1..];
      CutShares(s[1..], t[1..], k - 1);
    } else if k > 0 {
      assert s[0] == s[..k][0] && t[0] == t[..k][0];
    }
  }

  lemma Shift256(a: nat, x: nat, y: nat)
    ensures (a + x) % 256 == (a + y) % 256 <==> x % 256 == y % 256
  {
    if (a + x) % 256 == (a + y) % 256 {
      assert x - y == 256 * ((a + x) / 256 - (a + y) / 256);
    }
    if x % 256 == y % 256 {
      assert x - y == 256 * (x / 256 - y / 256);
    }
  }

  /** Replacing character k of the data by c leaves the checksum right: behind the first NUL anything does, a new NUL
      does when what it cuts off sums to zero, a lost NUL does when what it uncovers sums to zero, and otherwise the
      two characters must agree modulo 256. */
  predicate Unseen(s: string, k: nat, c: char)
    requires k < |s|
  {
    || k > |Cut(s)|
    || (if c == NUL then Cksum(s[k..]) == 0
        else if s[k] == NUL then (c as int + Total(Cut(s[k + 1..]))) % 256 == 0
        else c as int % 256 == s[k] as int % 256)
  }

  /** The sums from the changed character on. */
  lemma TailSums(s: string, k: nat, c: char)
    requires k < |s|
    ensures var old', new' := Total(Cut(s[k..])), Total(Cut(s[k := c][k..]));
      && old' == (if s[k] == NUL then 0 else s[k] as int + Total(Cut(s[k + 1..])))
      && new' == (if c == NUL then 0 else c as int + Total(Cut(s[k + 1..])))
  {
    var t := s[k := c];
    assert s[k..][1..] == s[k + 1..] && t[k..][1..] == s[k + 1..];
    assert s[k..][0] == s[k] && t[k..][0] == c;
    ConsSum(s[k..]);
    ConsSum(t[k..]);
  }

  lemma ConsSum(s: string)
    requires s != ""
    ensures Total(Cut(s)) == if s[0] == NUL then 0 else s[0] as int + Total(Cut(s[1..]))
  {
    if s[0] != NUL {
      assert Cut(s)[1..] == Cut(s[1..]);
    }
  }

  lemma UnseenIff(s: string, k: nat, c: char)
    requires k < |s|
    ensures Cksum(s[k := c]) == Cksum(s) <==> Unseen(s, k, c)
  {
    hide Cut, Total;
    var t := s[k := c];
    assert s[..k] == t[..k];
    CutShares(s, t, k);
    if k <= |Cut(s)| {
      CutSplit(s, k);
      CutSplit(t, k);
      TailSums(s, k, c);
      Shift256(Total(s[..k]), Total(Cut(s[k..])), Total(Cut(t[k..])));
      if c != NUL && s[k] != NUL {
        Shift256(Total(Cut(s[k + 1..])), s[k] as int, c as int);
      }
    }
  }

  /** An intact packet with one character changed in transit still passes exactly when the change is unseen. */
  lemma DamagePassesIff(x: Item, k: nat, c: char)
    requires x.Packet? && Whole(x) && Intact(x) && k < |x.data| && c != '#'
    ensures var y := x.(data := x.data[k := c]); Whole(y) && (Intact(y) <==> Unseen(x.data, k, c))
  {
    hide Cksum, Unseen;
    UnseenIff(x.data, k, c);
  }

  /** Two such packets: a character lost to a NUL, and one changed behind a NUL. */
  lemma DamageExamples()
    ensures var x := Packet('$', ['\U{80}', '\U{80}'], '0', '0');
      Whole(x) && Intact(x) && Intact(x.(data := x.data[0 := NUL]))
    ensures var x := Packet('$', ['s', NUL, 'a'], '7', '3');
      Whole(x) && Intact(x) && Intact(x.(data := x.data[2 := 'b']))
  {
    var e := ['\U{80}', '\U{80}'];
    ConsSum(e);
    ConsSum(e[1..]);
    ConsSum(e[0 := NUL]);
    assert Total(Cut(e[1..][1..])) == 0;
    assert Cksum(e) == 0 && Cksum(e[0 := NUL]) == 0;
    var d := ['s', NUL, 'a'];
    ConsSum(d);
    ConsSum(d[1..]);
    ConsSum(d[2 := 'b']);
    ConsSum(d[2 := 'b'][1..]);
  }

  // ----- reading the stream -----

  /** Nothing can be read off the front of t: it is empty, no '#' has two characters after it yet, the '#' comes
      first, or what follows it is no number. */
  predicate Blocked(t: string) {
    t == "" || (!IsAck(t[0]) && (Partial(t) || t[0] == '#' || !IsHex(t[Pound(t) + 1])))
  }

  /** The start of a packet that has not arrived in full. */
  predicate Partial(t: string) {
    t != "" && !IsAck(t[0]) && Pound(t) + 2 >= |t|
  }

  /** The items at the front of a text, and what is left when no more can be read. */
  function Parse(t: string): (r: (seq<Item>, string))
    ensures AllWhole(r.0) && Blocked(r.1)
    decreases |t|
  {
    if Blocked(t) then ([], t)
    else if IsAck(t[0]) then
      var (xs, more) := Parse(t[1..]);
      ([Ack(t[0])] + xs, more)
    else
      var k := Pound(t);
      var (xs, more) := Parse(t[k + 3..]);
      ([Packet(t[0], t[1..k], t[k + 1], t[k + 2])] + xs, more)
  }

  lemma StreamCons(x: Item, xs: seq<Item>)
    ensures Stream([x] + xs) == Text(x) + Stream(xs)
  {
    hide Text;
    assert ([x] + xs)[1..] == xs;
  }

  lemma PacketText(t: string, k: nat)
    requires 0 < k && k + 2 < |t| && t[k] == '#'
    ensures t == Text(Packet(t[0], t[1..k], t[k + 1], t[k + 2])) + t[k + 3..]
  {
    assert t == t[..k] + t[k..k + 3] + t[k + 3..];
    assert t[..k] == [t[0]] + t[1..k];
    assert t[k..k + 3] == ['#', t[k + 1], t[k + 2]];
  }

  lemma Regroup(x: Item, xs: seq<Item>, more: string, tail: string, t: string)
    requires t == Text(x) + tail && tail == Stream(xs) + more
    ensures t == Stream([x] + xs) + more
  {
    hide Text, Stream;
    StreamCons(x, xs);
    assert Text(x) + (Stream(xs) + more) == (Text(x) + Stream(xs)) + more;
  }

  /** The items and the rest make up the text. */
  lemma {:induction false} ParseText(t: string)
    ensures t == Stream(Parse(t).0) + Parse(t).1
    decreases |t|
  {
    hide Stream, Pound, Text;
    if Blocked(t) {
      StreamNone();
    } else if IsAck(t[0]) {
      var (xs, more) := Parse(t[1..]);
      ParseText(t[1..]);
      AckText(t);
      Regroup(Ack(t[0]), xs, more, t[1..], t);
    } else {
      var k := Pound(t);
      var (xs, more) := Parse(t[k + 3..]);
      ParseText(t[k + 3..]);
      PacketText(t, k);
      Regroup(Packet(t[0], t[1..k], t[k + 1], t[k + 2]), xs, more, t[k + 3..], t);
    }
  }

  lemma AckText(t: string)
    requires t != ""
    ensures t == Text(Ack(t[0])) + t[1..]
  {
  }

  lemma StreamNone()
    ensures Stream([]) == ""
  {
  }

  lemma TextAt(p: Item, more: string)
    requires p.Packet? && Whole(p)
    ensures var t, n := Text(p) + more, 1 + |p.data|;
      && |t| == n + 3 + |more| && Pound(t) == n
      && t[0] == p.lead && t[1..n] == p.data && t[n + 1] == p.hi && t[n + 2] == p.lo && t[n + 3..] == more
  {
    var t, n := Text(p) + more, 1 + |p.data|;
    assert t[..n] == [p.lead] + p.data;
    PoundAt(t, n);
  }

  /** A stream of whole items followed by something unreadable is read back as those items. */
  lemma {:induction false} ParseStream(xs: seq<Item>, more: string)
    requires AllWhole(xs) && Blocked(more)
    ensures Parse(Stream(xs) + more) == (xs, more)
  {
    hide Text, Pound;
    if xs == [] {
      assert Stream(xs) + more == more;
    } else {
      var t, rest := Stream(xs) + more, Stream(xs[1..]) + more;
      assert t == Text(xs[0]) + rest;
      ParseStream(xs[1..], more);
      ParseItem(xs[0], rest);
      assert [xs[0]] + xs[1..] == xs;
    }
  }

  lemma ParseItem(x: Item, rest: string)
    requires Whole(x)
    ensures Parse(Text(x) + rest) == ([x] + Parse(rest).0, Parse(rest).1)
  {
    hide Pound;
    var t := Text(x) + rest;
    if x.Ack? {
      assert t[0] == x.sign && t[1..] == rest;
    } else {
      TextAt(x, rest);
    }
  }

  // ----- damage outside the data -----

  /** A changed lead always passes, and changed digits pass exactly when they say the same number. */
  lemma FrameDamagePassesIff(x: Item, lead: char, hi: char, lo: char)
    requires x.Packet? && Whole(x) && Intact(x) && !IsAck(lead) && lead != '#' && IsHex(hi)
    ensures Whole(x.(lead := lead)) && Intact(x.(lead := lead))
    ensures Whole(x.(hi := hi, lo := lo))
    ensures Intact(x.(hi := hi, lo := lo)) <==> Digits(hi, lo) == Digits(x.hi, x.lo)
  {
    hide Cksum;
  }

  /** A data character changed to '#' ends the packet there: the two characters behind it are taken for the checksum,
      and nothing can be read if the first of them is no digit. */
  lemma CutByPound(x: Item, k: nat, more: string)
    requires x.Packet? && Whole(x) && k < |x.data|
    ensures var t := Text(x.(data := x.data[k := '#'])) + more;
      if IsHex(t[k + 2])
      then Parse(t).0 != [] && Parse(t).0[0] == Packet(x.lead, x.data[..k], t[k + 2], t[k + 3])
      else Parse(t) == ([], t)
  {
    hide Pound, IsHex;
    var t := Text(x.(data := x.data[k := '#'])) + more;
    assert t[0] == x.lead && t[k + 1] == '#';
    assert t[..k + 1] == [x.lead] + x.data[..k];
    PoundAt(t, k + 1);
    assert t[1..k + 1] == x.data[..k];
  }
}
