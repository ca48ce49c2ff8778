/** Messages over a ring of inc/vring.h as v2v channels send and receive them (xenevtchn/v2v.c).

    A message has a header of four bytes (type, flags, and size with the low byte first) and is rounded up to a
    multiple of eight bytes.  The receiver walks the ring by type and size and drops the pads.
  */
module V2vMessages {
  import opened Bits
  import opened RingIndex
  import opened Handshake
  import opened Nc2Ring
  import opened Nc2Protocol

  datatype Message = Message(tag: int, flags: int, payload: seq<int>)

  function RoundUp(x: nat): (r: nat)
    ensures x <= r < x + 8 && r % 8 == 0
  {
    (x + 7) / 8 * 8
  }

  /** The mask that the code uses. */
  lemma RoundUpIsMask(x: Index)
    requires x + 7 < WRAP
    ensures And(Plus(x, 7), WRAP - 8) == RoundUp(x)
  {
    assert RingSize(8) by {
      assert IsPow2(4) && IsPow2(2);
    }
    PassIsMask(Plus(x, 7), 8);
  }

  // ------------------------------------------------------------ sending

  datatype Prepared = InvalidParameter | NotImplemented | Prepared(size: Short, rounded: Short)

  /** The sizes that v2v_nc2_prep_message computes for `length` bytes of payload; both are unsigned shorts. */
  function Prepare(n: Index, length: nat, tag: int): Prepared {
    if RoundUp(length + 4) > n then InvalidParameter
    else if tag >= 255 then NotImplemented
    else
      var size := U16(length + 4);
      Prepared(size, U16(RoundUp(size)))
  }

  /** A message that is not refused gets the right sizes if and only if its rounded size is not 64K.  Rings have at most
      64K. */
  lemma PreparedIff(n: Index, length: nat, tag: int)
    requires n <= 0x1_0000 && RoundUp(length + 4) <= n && tag < 255
    ensures var r := Prepare(n, length, tag);
      r.Prepared? &&
      (r.size == length + 4 && r.rounded == RoundUp(length + 4) <==> RoundUp(length + 4) != 0x1_0000)
  {
  }

  /** A message that fills a ring of 64K asks for no space at all. */
  lemma FullRingMessage()
    ensures Prepare(0x1_0000, 65529, 1) == Prepared(65533, 0)
  {
  }

  /** The bytes of a message; `slack` is what is in the ring behind it up to the rounded size. */
  function Framed(m: Message, slack: seq<int>): seq<int> {
    var size := |m.payload| + 4;
    [m.tag, m.flags, size % 256, size / 256] + m.payload + slack
  }

  // ------------------------------------------------------------ walking the ring

  function SizeAt(w: seq<int>): int
    requires |w| >= 4
  {
    w[2] + 256 * w[3]
  }

  /** `w` starts with a header that announces a possible size. */
  predicate Headed(w: seq<int>) {
    |w| >= 4 && 4 <= SizeAt(w) < 0x1_0000
  }

  /** How far to move on: a pad has the size it announces, a message is rounded up. */
  function Extent(w: seq<int>): (k: nat)
    requires Headed(w)
    ensures k >= 4
  {
    if w[0] == PAD then SizeAt(w) else RoundUp(SizeAt(w))
  }

  /** `w` starts with a whole message or pad. */
  predicate Whole(w: seq<int>) {
    Headed(w) && Extent(w) <= |w|
  }

  function MessageOf(w: seq<int>): Message
    requires Headed(w) && SizeAt(w) <= |w|
  {
    Message(w[0], w[1], w[4..SizeAt(w)])
  }

  /** The messages in `w`, without the pads. */
  function Parse(w: seq<int>): seq<Message>
    decreases |w|
  {
    if !Whole(w) then []
    else (if w[0] == PAD then [] else [MessageOf(w)]) + Parse(w[Extent(w)..])
  }

  /** What v2v_nc2_prep_message sends, v2v_nc2_get_message finds. */
  lemma FramedBack(m: Message, slack: seq<int>)
    requires m.tag != PAD && |m.payload| + 4 + |slack| == RoundUp(|m.payload| + 4) < 0x1_0000
    ensures Alone(Framed(m, slack)) && Parse(Framed(m, slack)) == [m]
  {
    var w := Framed(m, slack);
    assert w[..4] == [m.tag, m.flags, (|m.payload| + 4) % 256, (|m.payload| + 4) / 256];
    assert w[4..|m.payload| + 4] == m.payload;
    assert w[Extent(w)..] == [];
  }

  // ------------------------------------------------------------ receiving

  datatype Incoming = NoMoreEntries | DataError | Padding(size: int) | Received(message: Message)

  /** One turn of v2v_nc2_get_message at the consumer's cursor. */
  function GetMessage(p: Pair): Incoming
    requires p.n > 0 && |p.buf| == p.n
  {
    var at := p.out.seen % p.n;
    if p.out.index == p.out.seen then NoMoreEntries
    else if at + 4 > p.n then DataError
    else
      var size := p.buf[at + 2] + 256 * p.buf[at + 3];
      if size < 4 || at + size > p.n then DataError
      else if p.buf[at] == PAD then Padding(size)
      else Received(Message(p.buf[at], p.buf[at + 1], p.buf[at + 4..at + size]))
  }

  /** How far the cursor is moved: over a pad at once, over a message by v2v_nc2_finish_message. */
  function Moved(g: Incoming): int {
    match g
    case Padding(size) => size
    case Received(m) => RoundUp(|m.payload| + 4)
    case _ => 0
  }

  // ------------------------------------------------------------ the bytes between the two ends

  /** Everything between the consumer's cursor and the private producer index. */
  function Pending(p: Pair): seq<int>
    requires p.n > 0 && |p.buf| == p.n
  {
    Window(p.buf, p.n, p.out.seen, Diff(p.out.pvt, p.out.seen))
  }

  /** `w` lies in a ring of `n` bytes from index `at` on: it consists of whole messages and pads, each in one piece,
      and the first `x` bytes are some of these. */
  ghost predicate Laid(w: seq<int>, n: Index, at: Index, x: int)
    requires n > 0 && |w| < WRAP
    decreases |w|
  {
    if w == [] then x == 0
    else
      && Whole(w) && at % n + Extent(w) <= n && (x == 0 || Extent(w) <= x)
      && Laid(w[Extent(w)..], n, Plus(at, Extent(w)), if x == 0 then 0 else x - Extent(w))
  }

  /** A message or pad and nothing else. */
  predicate Alone(v: seq<int>) {
    Headed(v) && Extent(v) == |v|
  }

  lemma HeadSame(w: seq<int>, v: seq<int>)
    requires Whole(w)
    ensures Whole(w + v) && Extent(w + v) == Extent(w) && (w + v)[Extent(w)..] == w[Extent(w)..] + v
    ensures MessageOf(w + v) == MessageOf(w) && (w + v)[0] == w[0]
  {
    assert (w + v)[..4] == w[..4];
    assert (w + v)[4..SizeAt(w)] == w[4..SizeAt(w)];
  }

  lemma PlusPlus(at: Index, a: Index, b: Index)
    requires a + b < WRAP
    ensures Plus(Plus(at, a), b) == Plus(at, a + b)
  {
  }

  lemma PlusZero(at: Index)
    ensures Plus(at, 0) == at
  {
  }

  /** Appending a message keeps what is there. */
  lemma {:induction false} LaidAppend(w: seq<int>, v: seq<int>, n: Index, at: Index, x: int)
    requires n > 0 && |w| + |v| < WRAP && Laid(w, n, at, x) && Alone(v) && Plus(at, |w|) % n + |v| <= n
    ensures Laid(w + v, n, at, x) && Parse(w + v) == Parse(w) + Parse(v)
    decreases |w|
  {
    hide Extent, Headed, MessageOf, Plus;
    if w == [] {
      assert Plus(at, 0) == at by { PlusZero(at); }
      assert w + v == v && v[Extent(v)..] == [];
    } else {
      var k := Extent(w);
      HeadSame(w, v);
      PlusPlus(at, k, |w| - k);
      LaidAppend(w[k..], v, n, Plus(at, k), if x == 0 then 0 else x - k);
    }
  }

  /** Publishing everything. */
  lemma {:induction false} LaidPublish(w: seq<int>, n: Index, at: Index, x: int)
    requires n > 0 && |w| < WRAP && Laid(w, n, at, x)
    ensures Laid(w, n, at, |w|)
    decreases |w|
  {
    if w != [] {
      var k := Extent(w);
      LaidPublish(w[k..], n, Plus(at, k), if x == 0 then 0 else x - k);
      if |w| == k {
        assert w[k..] == [];
      }
    }
  }

  // ------------------------------------------------------------ steps

  ghost predicate Stream(p: Pair, received: seq<Message>, sent: seq<Message>)
    requires Geometry(p)
  {
    && Laid(Pending(p), p.n, p.out.seen, Diff(p.out.index, p.out.seen))
    && received + Parse(Pending(p)) == sent
  }

  lemma WindowSuffix(buf: seq<int>, n: Index, base: Index, a: int, b: int)
    requires n > 0 && |buf| == n && 0 <= a <= b < WRAP
    ensures Window(buf, n, base, b)[a..] == Window(buf, n, Plus(base, a), b - a)
  {
    forall i | 0 <= i < b - a
      ensures Window(buf, n, base, b)[a..][i] == Window(buf, n, Plus(base, a), b - a)[i]
    {
      PlusPlus(base, a, i);
    }
  }

  /** The part of the invariant that places the indices. */
  ghost predicate Tidy(p: Pair) {
    Geometry(p) && Ordered(p) && p.out.seen == p.space.pvt
  }

  lemma TidyOf(p: Pair)
    requires Inv(p)
    ensures Tidy(p) && Geometry(p)
  {
    hide GrantHolds, CountIsLow, Sound;
  }

  /** What is pending is the end of what is unread. */
  lemma {:induction false} PendingIsSuffix(p: Pair)
    requires Tidy(p)
    ensures var d := Diff(p.out.seen, p.space.index);
      && d <= |Unread(p)| <= p.n && Pending(p) == Unread(p)[d..]
      && Plus(p.out.seen, |Pending(p)|) == p.out.pvt
  {
    RingSizeBound(p.n);
    hide RingSize;
    var d := Diff(p.out.seen, p.space.index);
    WindowSuffix(p.buf, p.n, p.space.index, d, |Unread(p)|);
    assert Plus(p.space.index, d) == p.out.seen;
  }

  lemma {:induction false} SendUnread(p: Pair, data: seq<int>)
    requires Inv(p) && Allowed(p, Send(data))
    ensures var q, pad, u := Perform(p, Send(data)), Pad(p.out.pvt, p.n, p.granted), |Unread(p)|;
      && 0 <= pad < 0x1_0000 && Plus(p.out.pvt, pad) % p.n + |data| <= p.n && |data| > 0
      && |q.buf| == q.n == p.n && |Unread(q)| == u + pad + |data|
      && Unread(q)[..u] == Unread(p)
      && (pad > 0 ==> IsPad(Unread(q)[u..u + pad], pad) && p.out.pvt % p.n + pad == p.n)
      && Unread(q)[u + pad..] == data
  {
    SendAppends(p, data);
    Contiguous(p.out.pvt, p.n, p.granted);
    hide Sound, CountIsLow, Ordered, IsPow2, WouldWrap, Window, WriteAt;
    if WouldWrap(p.out.pvt, p.n, p.granted) {
      PadIsShort(p.out.pvt, p.n, p.granted);
    }
  }

  lemma Suffixes(w: seq<int>, v: seq<int>, gap: seq<int>, data: seq<int>, d: nat)
    requires |v| == |w| + |gap| + |data| && v[..|w|] == w && v[|w|..|w| + |gap|] == gap && v[|w| + |gap|..] == data
    requires d <= |w|
    ensures v[d..] == w[d..] + gap + data
  {
    assert v == v[..|w|] + v[|w|..|w| + |gap|] + v[|w| + |gap|..];
  }

  /** What sending appends: a pad, if there is one, and the message, each in one piece. */
  lemma {:induction false} SendPending(p: Pair, data: seq<int>) returns (gap: seq<int>)
    requires Inv(p) && Allowed(p, Send(data))
    ensures Geometry(p) && Geometry(Perform(p, Send(data)))
    ensures var q, u := Perform(p, Send(data)), |Pending(p)|;
      && q.n == p.n && q.out == p.out.(pvt := q.out.pvt)
      && Pending(q) == Pending(p) + gap + data && |Pending(q)| <= p.n
      && (gap != [] ==> IsPad(gap, |gap|) && |gap| < 0x1_0000 && Plus(p.out.seen, u) % p.n + |gap| <= p.n)
      && u + |gap| < WRAP && Plus(p.out.seen, u + |gap|) % p.n + |data| <= p.n
  {
    hide Inv, Perform, Allowed, Window, IsPow2, WouldWrap, IsPad, Tidy, RingSize, Unread, Pending;
    var q := Perform(p, Send(data));
    SendUnread(p, data);
    SendFrame(p, data);
    StepKeepsInv(p, Send(data));
    TidyOf(p);
    TidyOf(q);
    PendingIsSuffix(p);
    PendingIsSuffix(q);
    var d, u, pad := Diff(p.out.seen, p.space.index), |Unread(p)|, Pad(p.out.pvt, p.n, p.granted);
    gap := Unread(q)[u..u + pad];
    Suffixes(Unread(p), Unread(q), gap, data, d);
    PlusPlus(p.out.seen, |Pending(p)|, pad);
  }

  lemma {:induction false} SendStream(p: Pair, data: seq<int>, received: seq<Message>, sent: seq<Message>)
    requires Inv(p) && Allowed(p, Send(data)) && Stream(p, received, sent) && Alone(data)
    ensures var q := Perform(p, Send(data)); Geometry(q) && Stream(q, received, sent + Parse(data))
  {
    var gap := SendPending(p, data);
    var w, x := Pending(p), Diff(p.out.index, p.out.seen);
    hide Inv, Perform, Window, Laid, Parse, Pending, Allowed, IsPad, RingSize, Plus, Alone;
    AppendBoth(w, gap, data, p.n, p.out.seen, x);
    assert received + Parse(w) + Parse(data) == received + (Parse(w) + Parse(data));
  }

  lemma {:induction false} AppendBoth(w: seq<int>, gap: seq<int>, data: seq<int>, n: Index, at: Index, x: int)
    requires n > 0 && |w| + |gap| + |data| < WRAP && Laid(w, n, at, x) && Alone(data)
    requires gap != [] ==> IsPad(gap, |gap|) && |gap| < 0x1_0000 && Plus(at, |w|) % n + |gap| <= n
    requires Plus(at, |w| + |gap|) % n + |data| <= n
    ensures Laid(w + gap + data, n, at, x) && Parse(w + gap + data) == Parse(w) + Parse(data)
  {
    hide Laid, Parse, IsPad;
    if gap != [] {
      PadParses(gap);
      LaidAppend(w, gap, n, at, x);
    } else {
      assert w + gap == w;
    }
    LaidAppend(w + gap, data, n, at, x);
  }

  lemma PadParses(gap: seq<int>)
    requires IsPad(gap, |gap|) && |gap| < 0x1_0000
    ensures Alone(gap) && Parse(gap) == []
  {
    assert gap[Extent(gap)..] == [];
  }

  /** The consumer finds the head of what is pending. */
  lemma {:induction false} HeadFound(p: Pair)
    requires Inv(p) && Laid(Pending(p), p.n, p.out.seen, Diff(p.out.index, p.out.seen)) && p.out.index != p.out.seen
    ensures var w, g := Pending(p), GetMessage(p);
      && Whole(w) && Moved(g) == Extent(w) <= Diff(p.out.index, p.out.seen)
      && g == if w[0] == PAD then Padding(Extent(w)) else Received(MessageOf(w))
  {
    var w, at := Pending(p), p.out.seen % p.n;
    assert Diff(p.out.index, p.out.seen) != 0;
    assert Whole(w) && at + Extent(w) <= p.n;
    forall i | 0 <= i < Extent(w) ensures p.buf[at + i] == w[i] {
      SlotStep(p.out.seen, i, p.n);
    }
    hide Inv, Window, Laid;
    var size := SizeAt(w);
    assert p.buf[at + 4..at + size] == w[4..size];
  }

  lemma {:induction false} ProcessStream(p: Pair, k: Index, received: seq<Message>, sent: seq<Message>)
    requires Inv(p) && Allowed(p, Process(k)) && Stream(p, received, sent)
    requires p.out.index != p.out.seen && k == Moved(GetMessage(p))
    ensures var q := Perform(p, Process(k)); Geometry(q) && Stream(q, received + Delivered(GetMessage(p)), sent)
  {
    hide Inv, Window, Pending, GetMessage, Perform, Allowed, Parse, Laid;
    TidyOf(p);
    HeadFound(p);
    var w, x := Pending(p), Diff(p.out.index, p.out.seen);
    PendingAfter(p, k);
    LaidHead(w, p.n, p.out.seen, x);
    assert received + Parse(w) == received + Delivered(GetMessage(p)) + Parse(w[k..]);
  }

  lemma LaidHead(w: seq<int>, n: Index, at: Index, x: int)
    requires n > 0 && |w| < WRAP && Laid(w, n, at, x) && x != 0
    ensures Whole(w) && Laid(w[Extent(w)..], n, Plus(at, Extent(w)), x - Extent(w))
    ensures Parse(w) == (if w[0] == PAD then [] else [MessageOf(w)]) + Parse(w[Extent(w)..])
  {
  }

  lemma {:induction false} PendingAfter(p: Pair, k: Index)
    requires Inv(p) && Allowed(p, Process(k)) && k <= |Pending(p)|
    ensures var q := Perform(p, Process(k));
      && Geometry(p) && q.n == p.n && q.buf == p.buf && |Pending(p)| < WRAP && Pending(q) == Pending(p)[k..]
      && q.out.index == p.out.index && q.out.seen == Plus(p.out.seen, k)
      && Diff(q.out.index, q.out.seen) == Diff(p.out.index, p.out.seen) - k
  {
    WindowSuffix(p.buf, p.n, p.out.seen, k, Diff(p.out.pvt, p.out.seen));
    hide Window, Sound, IsPow2;
  }

  /** What one turn hands to the receiver. */
  function Delivered(g: Incoming): seq<Message> {
    if g.Received? then [g.message] else []
  }

  lemma {:induction false} FlushStream(p: Pair, received: seq<Message>, sent: seq<Message>)
    requires Inv(p) && Allowed(p, Flush) && Stream(p, received, sent)
    ensures Stream(Perform(p, Flush), received, sent)
  {
    LaidPublish(Pending(p), p.n, p.out.seen, Diff(p.out.index, p.out.seen));
    hide Laid, Window, Sound;
  }

  lemma {:induction false} OtherStream(p: Pair, a: Action, received: seq<Message>, sent: seq<Message>)
    requires Inv(p) && Allowed(p, a) && Stream(p, received, sent) && !a.Send? && !a.Process? && !a.Flush?
    ensures Geometry(Perform(p, a)) && Stream(Perform(p, a), received, sent)
  {
    hide Laid, Window, Sound, Parse;
  }

  // ------------------------------------------------------------ runs

  /** A run between two v2v ends: what is sent are messages, and the receiver moves as its code does. */
  ghost predicate V2vRun(ps: seq<Pair>, acts: seq<Action>) {
    && Nc2Protocol.IsRun(ps, acts)
    && forall i :: 0 <= i < |acts| ==> Geometry(ps[i]) ==> Proper(ps[i], acts[i])
  }

  ghost predicate Proper(p: Pair, a: Action)
    requires Geometry(p)
  {
    match a
    case Send(data) => Alone(data) && data[0] != PAD
    case Process(k) => p.out.index != p.out.seen && k == Moved(GetMessage(p))
    case _ => true
  }

  /** The messages sent in the first `i` steps. */
  function Sent(acts: seq<Action>, i: nat): seq<Message>
    requires i <= |acts|
  {
    if i == 0 then []
    else Sent(acts, i - 1) + if acts[i - 1].Send? then Parse(acts[i - 1].data) else []
  }

  /** The messages received in the first `i` steps. */
  ghost function Got(ps: seq<Pair>, acts: seq<Action>, i: nat): seq<Message>
    requires i < |ps| && i <= |acts|
  {
    if i == 0 then []
    else Got(ps, acts, i - 1) +
         if acts[i - 1].Process? && Geometry(ps[i - 1]) then Delivered(GetMessage(ps[i - 1])) else []
  }

  lemma {:induction false} StreamStep(p: Pair, a: Action, received: seq<Message>, sent: seq<Message>)
    requires Inv(p) && Allowed(p, a) && Stream(p, received, sent) && Proper(p, a)
    ensures var q := Perform(p, a);
      Geometry(q) && Stream(q, received + (if a.Process? then Delivered(GetMessage(p)) else []),
                            sent + (if a.Send? then Parse(a.data) else []))
  {
    assert received + [] == received && sent + [] == sent;
    hide Stream, Parse, Perform, GetMessage, Allowed;
    match a
    case Send(data) => SendStream(p, data, received, sent);
    case Process(k) => ProcessStream(p, k, received, sent);
    case Flush => FlushStream(p, received, sent); PerformedGeometry(p, a);
    case _ => OtherStream(p, a, received, sent);
  }

  lemma PerformedGeometry(p: Pair, a: Action)
    requires Inv(p) && Allowed(p, a)
    ensures Geometry(Perform(p, a))
  {
    hide Perform;
    StepKeepsInv(p, a);
  }

  lemma {:induction false} EveryStream(ps: seq<Pair>, acts: seq<Action>, i: nat)
    requires V2vRun(ps, acts) && i < |ps|
    ensures Inv(ps[i]) && Stream(ps[i], Got(ps, acts, i), Sent(acts, i))
  {
    EveryRun(ps, acts, i);
    if i == 0 {
      hide Inv;
      assert Pending(ps[0]) == [];
    } else {
      EveryStream(ps, acts, i - 1);
      hide Inv, Stream, Perform, Allowed;
      StreamStep(ps[i - 1], acts[i - 1], Got(ps, acts, i - 1), Sent(acts, i - 1));
    }
  }

  /** In every run the messages received are the first messages sent, in order and with their contents, and the rest is
      still in the ring, between pads that the receiver drops.  Whenever something is published and not received, the
      receiver finds a whole message or pad, never an error.  When nothing is left in the ring everything sent has been
      received. */
  lemma {:induction false} MessagesArrive(ps: seq<Pair>, acts: seq<Action>, i: nat)
    requires V2vRun(ps, acts) && i < |ps|
    ensures Geometry(ps[i]) && Got(ps, acts, i) + Parse(Pending(ps[i])) == Sent(acts, i)
    ensures ps[i].out.index != ps[i].out.seen ==>
      var g := GetMessage(ps[i]);
      (g.Padding? || g.Received?) && 4 <= Moved(g) <= Diff(ps[i].out.index, ps[i].out.seen)
    ensures ps[i].out.seen == ps[i].out.pvt ==> Got(ps, acts, i) == Sent(acts, i)
  {
    EveryStream(ps, acts, i);
    hide V2vRun, Inv, Laid, Window, Parse;
    if ps[i].out.index != ps[i].out.seen {
      HeadFound(ps[i]);
    }
    if ps[i].out.seen == ps[i].out.pvt {
      NothingParsed(ps[i]);
    }
  }

  lemma NothingParsed(p: Pair)
    requires Geometry(p) && p.out.seen == p.out.pvt
    ensures Parse(Pending(p)) == []
  {
  }
}
