/** One direction of a ring pair of inc/vring.h as a step system.

    `out` is the handshake on the producer index, which the consumer watches; `space` is the
    handshake on the consumer index, which a producer that was refused space watches.  Every
    access to shared memory is a step; what the producer writes is kept byte by byte.
  */
module Nc2Protocol {
  import opened Bits
  import opened RingIndex
  import opened Handshake
  import opened Nc2Ring

  datatype Pair = Pair(
    n: Index, buf: seq<int>,   // payload area
    out: Channel,              // index: prod, event: prod_event, pvt: local_prod_pvt, seen: local_cons_pvt
    space: Channel,            // index: cons, event: cons_event, pvt: local_cons_pvt, seen: cons as last read
    available: int,            // local_prod_bytes_available
    granted: Short             // size that the last can-send call allowed, or 0
  )

  // ------------------------------------------------------------ bytes in the ring

  /** `len` bytes of the payload area from index `base` on. */
  function Window(buf: seq<int>, n: Index, base: Index, len: int): seq<int>
    requires n > 0 && |buf| == n && 0 <= len < WRAP
  {
    seq(len, i requires 0 <= i < len => buf[Slot(Plus(base, i), n)])
  }

  /** Everything between the published consumer index and the private producer index. */
  function Unread(p: Pair): seq<int>
    requires p.n > 0 && |p.buf| == p.n
  {
    Window(p.buf, p.n, p.space.index, Diff(p.out.pvt, p.space.index))
  }

  function WriteAt(buf: seq<int>, at: int, data: seq<int>): (r: seq<int>)
    requires 0 <= at && at + |data| <= |buf|
    ensures |r| == |buf|
  {
    buf[..at] + data + buf[at + |data|..]
  }

  lemma SlotStep(x: Index, j: int, n: Index)
    requires RingSize(n) && 0 <= j && x % n + j < n
    ensures Slot(Plus(x, j), n) == x % n + j
  {
    hide IsPow2;
    PassBounds(x, n);
    RemainderAbove(Pass(x, n), n, x % n + j);
  }

  /** Writing into free space leaves every unread byte alone and appends what was written. */
  lemma WriteAppends(buf: seq<int>, n: Index, cons: Index, prod: Index, data: seq<int>)
    requires RingSize(n) && |buf| == n
    requires Diff(prod, cons) + |data| <= n && prod % n + |data| <= n
    ensures Window(WriteAt(buf, prod % n, data), n, cons, Diff(prod, cons) + |data|) ==
            Window(buf, n, cons, Diff(prod, cons)) + data
  {
    hide IsPow2;
    var buf', d := WriteAt(buf, prod % n, data), Diff(prod, cons);
    forall i | 0 <= i < d ensures buf'[Slot(Plus(cons, i), n)] == buf[Slot(Plus(cons, i), n)] {
      OutsideWrite(n, cons, prod, i, |data|);
    }
    forall j | 0 <= j < |data| ensures buf'[Slot(Plus(cons, d + j), n)] == data[j] {
      assert Plus(cons, d + j) == Plus(prod, j);
      SlotStep(prod, j, n);
    }
  }

  lemma {:induction false} OutsideWrite(n: Index, cons: Index, prod: Index, i: int, len: int)
    requires RingSize(n) && 0 <= i < Diff(prod, cons) && 0 <= len
    requires Diff(prod, cons) + len <= n && prod % n + len <= n
    ensures var s := Slot(Plus(cons, i), n); s < prod % n || s >= prod % n + len
  {
    var s, d := Slot(Plus(cons, i), n), Diff(prod, cons);
    if prod % n <= s < prod % n + len {
      var j := s - prod % n;
      SlotStep(prod, j, n);
      assert Plus(cons, d + j) == Plus(prod, j);
      SlotsDistinct(cons, i, d + j, n);
    }
  }

  // ------------------------------------------------------------ operations

  const PAD: int := 255  // NETCHANNEL2_MSG_PAD

  function PadHeader(nr: Short): (h: seq<int>)
    ensures |h| == 4
  {
    [PAD, 0, nr % 256, nr / 256]
  }

  /** __nc2_send_pad */
  function SendPad(p: Pair, nr: Short): Pair
    requires p.n > 0 && |p.buf| == p.n && p.out.pvt % p.n + 4 <= p.n
  {
    p.(buf := WriteAt(p.buf, p.out.pvt % p.n, PadHeader(nr)),
       out := Advance(p.out, nr), available := p.available - nr)
  }

  /** Writing the message itself and accounting for it. */
  function SendMessage(p: Pair, data: seq<int>): Pair
    requires p.n > 0 && |p.buf| == p.n && |data| < 0x1_0000 && p.out.pvt % p.n + |data| <= p.n
  {
    p.(buf := WriteAt(p.buf, p.out.pvt % p.n, data),
       out := Advance(p.out, |data|), available := p.available - |data|)
  }

  /** __nc2_avoid_ring_wrap */
  function AvoidWrap(p: Pair, nr: Short): Pair
    requires p.n > 0 && |p.buf| == p.n && (WouldWrap(p.out.pvt, p.n, nr) ==> p.out.pvt % p.n + 4 <= p.n)
  {
    if WouldWrap(p.out.pvt, p.n, nr) then SendPad(p, PadNeeded(p.out.pvt, p.n)) else p
  }

  // ------------------------------------------------------------ invariants

  ghost predicate Ordered(p: Pair) {
    var c := p.space.index;
    Diff(p.space.pvt, c) <= Diff(p.out.index, c) <= Diff(p.out.pvt, c) <= p.n
  }

  ghost predicate Geometry(p: Pair) {
    RingSize(p.n) && |p.buf| == p.n
  }

  /** The producer's count never exceeds the space that is really free. */
  ghost predicate CountIsLow(p: Pair) {
    0 <= p.available <= Free(p.out.pvt, p.n, p.space.index)
  }

  /** A message that may be sent fits, with its pad. */
  ghost predicate GrantHolds(p: Pair)
    requires p.n > 0
  {
    p.granted > 0 ==> p.granted + Pad(p.out.pvt, p.n, p.granted) <= p.available
  }

  ghost predicate Inv(p: Pair) {
    && Geometry(p)
    && Ordered(p)
    && p.out.seen == p.space.pvt
    && CountIsLow(p)
    && GrantHolds(p)
    && Sound(p.out) && Sound(p.space)
  }

  /** The message that may be sent needs no pad, or one that has room for its own header.  With a shorter pad the
      header would run past the payload area (Nc2Ring.OddSizeOverruns); that is not a step of this system. */
  predicate PadFits(p: Pair)
    requires p.n > 0
  {
    var pad := Pad(p.out.pvt, p.n, p.granted);
    pad == 0 || pad >= 4
  }

  /** The invariants that sending keeps. */
  ghost predicate Room(p: Pair) {
    Geometry(p) && Ordered(p) && CountIsLow(p)
  }

  lemma {:induction false} AdvanceRoom(p: Pair, buf: seq<int>, k: Short)
    requires Room(p) && |buf| == p.n && k <= p.available
    ensures var q := p.(buf := buf, out := Advance(p.out, k), available := p.available - k);
      Room(q) && Diff(q.out.pvt, q.space.index) == Diff(p.out.pvt, p.space.index) + k
  {
    hide IsPow2;
    RingSizeBound(p.n);
  }

  lemma MessageAppends(p: Pair, data: seq<int>)
    requires Room(p) && |data| <= p.available && |data| < 0x1_0000 && p.out.pvt % p.n + |data| <= p.n
    ensures Room(SendMessage(p, data)) && Unread(SendMessage(p, data)) == Unread(p) + data
  {
    AdvanceRoom(p, SendMessage(p, data).buf, |data|);
    hide IsPow2, WriteAt, Window;
    WriteAppends(p.buf, p.n, p.space.index, p.out.pvt, data);
  }

  /** A pad message of `size` bytes: its type, its flags, and its size with the low byte first. */
  predicate IsPad(w: seq<int>, size: int) {
    4 <= |w| == size && w[0] == 255 && w[1] == 0 && w[2] + 256 * w[3] == size
  }

  lemma {:induction false} PadAppends(p: Pair, pad: Short)
    requires Room(p) && 4 <= pad <= p.available && p.out.pvt % p.n + pad <= p.n
    ensures var q, u := SendPad(p, pad), |Unread(p)|;
      && Room(q) && |Unread(q)| == u + pad
      && Unread(q)[..u] == Unread(p) && IsPad(Unread(q)[u..], pad)
  {
    PadHeaderIs(pad);
    hide IsPow2, WriteAt, PadHeader, WouldWrap;
    var q, d := SendPad(p, pad), Diff(p.out.pvt, p.space.index);
    AdvanceRoom(p, q.buf, pad);
    assert d + pad <= p.n;
    WriteAppends(p.buf, p.n, p.space.index, p.out.pvt, PadHeader(pad));
    WindowPrefix(q.buf, p.n, p.space.index, d + 4, d + pad);
    SplitAt(Unread(q), Unread(p), PadHeader(pad));
    HeaderIs(Unread(q), |Unread(p)|, PadHeader(pad), pad);
  }

  lemma PadHeaderIs(pad: Short)
    ensures var h := PadHeader(pad); h[0] == 255 && h[1] == 0 && h[2] + 256 * h[3] == pad
  {
  }

  lemma HeaderIs(w: seq<int>, u: nat, h: seq<int>, pad: int)
    requires |w| == u + pad && pad >= 4 && |h| == 4 && w[u..u + 4] == h
    requires h[0] == 255 && h[1] == 0 && h[2] + 256 * h[3] == pad
    ensures IsPad(w[u..], pad)
  {
    assert w[u..][..4] == w[u..u + 4];
  }

  lemma WindowPrefix(buf: seq<int>, n: Index, base: Index, a: int, b: int)
    requires n > 0 && |buf| == n && 0 <= a <= b < WRAP
    ensures Window(buf, n, base, b)[..a] == Window(buf, n, base, a)
  {
  }

  lemma SplitAt(w: seq<int>, a: seq<int>, b: seq<int>)
    requires |a| + |b| <= |w| && w[..|a| + |b|] == a + b
    ensures w[..|a|] == a && w[|a|..|a| + |b|] == b
  {
    var v := w[..|a| + |b|];
    assert w[..|a|] == v[..|a|] && w[|a|..|a| + |b|] == v[|a|..];
  }

  /** Sending a granted message: the pad, if any, and the message go into free space, the
      message in one piece; no unread byte changes and exactly these bytes are appended.  The pad announces its own
      size, and the count of free bytes goes down by what was appended. */
  lemma {:induction false} SendAppends(p: Pair, data: seq<int>)
    requires Room(p) && GrantHolds(p) && PadFits(p) && p.granted == |data| > 0
    ensures WouldWrap(p.out.pvt, p.n, p.granted) ==> p.out.pvt % p.n + 4 <= p.n
    ensures var q := AvoidWrap(p, p.granted); var pad, u := Pad(p.out.pvt, p.n, p.granted), |Unread(p)|;
      && |q.buf| == p.n && q.out.pvt % p.n + |data| <= p.n
      && var r := SendMessage(q, data);
         && Room(r)
         && |Unread(r)| == u + pad + |data|
         && Unread(r)[..u] == Unread(p)
         && (pad > 0 ==> IsPad(Unread(r)[u..u + pad], pad) && p.out.pvt % p.n + pad == p.n)
         && Unread(r)[u + pad..] == data
         && r.available == p.available - pad - |data|
  {
    hide IsPow2, Window, PadHeader, WouldWrap, WriteAt;
    Contiguous(p.out.pvt, p.n, p.granted);
    if WouldWrap(p.out.pvt, p.n, p.granted) {
      PadIsShort(p.out.pvt, p.n, p.granted);
      PadAppends(p, PadNeeded(p.out.pvt, p.n));
    }
    var q, pad, u := AvoidWrap(p, p.granted), Pad(p.out.pvt, p.n, p.granted), |Unread(p)|;
    MessageAppends(q, data);
    SendPieces(Unread(p), Unread(q), data, u, pad);
  }

  lemma SendPieces(w: seq<int>, v: seq<int>, data: seq<int>, u: nat, pad: nat)
    requires u == |w| && |v| == u + pad && v[..u] == w
    ensures (v + data)[..u] == w && (v + data)[u..u + pad] == v[u..] && (v + data)[u + pad..] == data
  {
  }

  // ------------------------------------------------------------ steps

  datatype Action =
    // producer: nc2_can_send_payload_bytes, sending, nc2_flush_ring
    | FastPath(nr: Short)
    | ReadSpace(nr: Short) | SetSpaceEvent | RereadSpace
    | Send(data: seq<int>)
    | Flush | FlushCheck | FlushEvent
    | ProducerWakes(notified: bool)
    // consumer: processing, nc2_finish_messages, nc2_final_check_for_messages
    | Process(k: Index)
    | FinishMessages | FinishCheck | FinishEvent
    | FinalLook | SetProdEvent | FinalLookAgain
    | ConsumerWakes(notified: bool)

  ghost predicate Sendable(nr: Short) {
    0 < nr < 0x8000
  }

  ghost predicate Allowed(p: Pair, a: Action) {
    match a
    case FastPath(nr) => p.space.watcher.Awake? && Sendable(nr) && p.available > nr * 2
    case ReadSpace(nr) => p.space.watcher.Awake? && Sendable(nr)
    case SetSpaceEvent => p.space.watcher.Looked?
    case RereadSpace => p.space.watcher.Armed?
    case Send(data) =>
      p.space.watcher.Awake? && p.out.publisher.Ready? && p.granted == |data| > 0 && (p.n > 0 ==> PadFits(p))
    case Flush => p.out.publisher.Ready?
    case FlushCheck => p.out.publisher.Written?
    case FlushEvent => p.out.owed
    case ProducerWakes(notified) => p.space.watcher.Asleep? && (notified ==> p.space.pending)
    case Process(k) => p.out.watcher.Awake? && p.space.publisher.Ready? && k <= Diff(p.out.index, p.out.seen)
    case FinishMessages => p.space.publisher.Ready?
    case FinishCheck => p.space.publisher.Written?
    case FinishEvent => p.space.owed
    case FinalLook => p.out.watcher.Awake?
    case SetProdEvent => p.out.watcher.Looked?
    case FinalLookAgain => p.out.watcher.Armed?
    case ConsumerWakes(notified) => p.out.watcher.Asleep? && (notified ==> p.out.pending)
  }

  ghost function Perform(p: Pair, a: Action): Pair
    requires Inv(p) && Allowed(p, a)
  {
    match a
    case FastPath(nr) => p.(granted := nr)
    case ReadSpace(nr) =>
      var q := p.(space := See(p.space, p.space.index));
      var free := Free(p.out.pvt, p.n, p.space.index);
      if free >= Needed(p.out.pvt, p.n, nr) then q.(available := free, granted := nr)
      else q.(space := Look(q.space), granted := 0)
    case SetSpaceEvent => p.(space := Arm(p.space))
    case RereadSpace => p.(space := LookAgain(p.space))
    case Send(data) =>
      SendAppends(p, data);
      SendMessage(AvoidWrap(p, p.granted), data).(granted := 0)
    case Flush => p.(out := Publish(p.out))
    case FlushCheck => p.(out := CheckEvent(p.out))
    case FlushEvent => p.(out := Notify(p.out))
    case ProducerWakes(notified) => p.(space := Wake(p.space, notified))
    case Process(k) => p.(out := See(p.out, Plus(p.out.seen, k)), space := Advance(p.space, k))
    case FinishMessages => p.(space := Publish(p.space))
    case FinishCheck => p.(space := CheckEvent(p.space))
    case FinishEvent => p.(space := Notify(p.space))
    case FinalLook => p.(out := Look(p.out))
    case SetProdEvent => p.(out := Arm(p.out))
    case FinalLookAgain => p.(out := LookAgain(p.out))
    case ConsumerWakes(notified) => p.(out := Wake(p.out, notified))
  }

  lemma GrantedBySlowPath(p: Pair, nr: Short)
    requires Inv(p) && Sendable(nr) && Free(p.out.pvt, p.n, p.space.index) >= Needed(p.out.pvt, p.n, nr)
    ensures nr + Pad(p.out.pvt, p.n, nr) <= Free(p.out.pvt, p.n, p.space.index)
  {
    NeededIffShort(p.out.pvt, p.n, nr);
  }

  /** Reading the consumer index lets a message through, with the count brought up to date, if and only if message and
      pad fit; otherwise nothing may be sent, and the producer is about to set its threshold. */
  lemma ReadSpaceIff(p: Pair, nr: Short)
    requires Inv(p) && Allowed(p, ReadSpace(nr))
    ensures var q, free := Perform(p, ReadSpace(nr)), Free(p.out.pvt, p.n, p.space.index);
      && q.space.seen == p.space.index
      && if nr + Pad(p.out.pvt, p.n, nr) <= free
         then q.granted == nr && q.available == free && q.space.watcher.Awake?
         else q.granted == 0 && q.available == p.available && q.space.watcher.Looked?
  {
    NeededIffShort(p.out.pvt, p.n, nr);
  }

  /** The steps of the handshakes alone. */
  lemma HandshakeStep(p: Pair, a: Action)
    requires Inv(p) && Allowed(p, a)
    ensures Sound(Perform(p, a).out) && Sound(Perform(p, a).space)
  {
    hide Geometry, CountIsLow, GrantHolds, Ordered;
    match a
    case ReadSpace(nr) => StepSound(p.space, SSee(p.space.index)); StepSound(See(p.space, p.space.index), SLook);
    case SetSpaceEvent => StepSound(p.space, SArm);
    case RereadSpace => StepSound(p.space, SLookAgain);
    case Send(data) => SendFrame(p, data);
    case Flush => StepSound(p.out, SPublish);
    case FlushCheck => StepSound(p.out, SCheck);
    case FlushEvent => StepSound(p.out, SNotify);
    case ProducerWakes(notified) => StepSound(p.space, SWake(notified));
    case Process(k) => StepSound(p.out, SSee(Plus(p.out.seen, k))); StepSound(p.space, SAdvance(k));
    case FinishMessages => StepSound(p.space, SPublish);
    case FinishCheck => StepSound(p.space, SCheck);
    case FinishEvent => StepSound(p.space, SNotify);
    case FinalLook => StepSound(p.out, SLook);
    case SetProdEvent => StepSound(p.out, SArm);
    case FinalLookAgain => StepSound(p.out, SLookAgain);
    case ConsumerWakes(notified) => StepSound(p.out, SWake(notified));
    case FastPath(_) =>
  }

  lemma {:induction false} SendFrame(p: Pair, data: seq<int>)
    requires Inv(p) && Allowed(p, Send(data))
    ensures var q := Perform(p, Send(data));
      q.out == p.out.(pvt := q.out.pvt) && q.space == p.space && Room(q) && q.n == p.n && q.granted == 0
  {
    SendAppends(p, data);
    hide Room, GrantHolds, WouldWrap;
  }

  lemma StepKeepsInv(p: Pair, a: Action)
    requires Inv(p) && Allowed(p, a)
    ensures Inv(Perform(p, a))
  {
    HandshakeStep(p, a);
    hide WouldWrap, IsPow2, Sound;
    match a
    case FastPath(nr) => FastPathCoversPad(p.out.pvt, p.n, nr, p.available);
    case ReadSpace(nr) =>
      if Free(p.out.pvt, p.n, p.space.index) >= Needed(p.out.pvt, p.n, nr) {
        GrantedBySlowPath(p, nr);
      }
    case Send(data) => SendFrame(p, data);
    case Process(k) => RingSizeBound(p.n);
    case FinishMessages => RingSizeBound(p.n);
    case _ =>
  }

  /** An empty ring: nothing produced, no space known, both sides idle. */
  ghost predicate Start(p: Pair) {
    && RingSize(p.n) && |p.buf| == p.n
    && p.out == Channel(0, 1, 0, Ready, false, false, 0, Asleep)
    && p.space == Channel(0, 1, 0, Ready, false, false, 0, Awake)
    && p.available == 0 && p.granted == 0
  }

  ghost predicate IsRun(ps: seq<Pair>, acts: seq<Action>) {
    && |ps| == |acts| + 1
    && Start(ps[0])
    && forall i :: 0 <= i < |acts| ==>
         Allowed(ps[i], acts[i]) && (Inv(ps[i]) ==> ps[i + 1] == Perform(ps[i], acts[i]))
  }

  /** In every run: the producer's count of free bytes is a lower bound; a consumer asleep with
      published bytes left, and a producer refused for space that has since been given some,
      has a notification coming. */
  lemma {:induction false} EveryRun(ps: seq<Pair>, acts: seq<Action>, i: nat)
    requires IsRun(ps, acts) && i < |ps|
    ensures Inv(ps[i])
    ensures ps[i].available <= Free(ps[i].out.pvt, ps[i].n, ps[i].space.index)
    ensures ps[i].out.watcher.Asleep? && ps[i].out.index != ps[i].space.pvt ==> Coming(ps[i].out)
    ensures ps[i].space.watcher.Asleep? && ps[i].space.index != ps[i].space.seen ==> Coming(ps[i].space)
  {
    if i > 0 {
      EveryRun(ps, acts, i - 1);
      StepKeepsInv(ps[i - 1], acts[i - 1]);
    }
    hide Perform, Geometry, GrantHolds;
    var p := ps[i];
    if p.out.watcher.Asleep? && p.out.index != p.out.seen {
      SoundIsSafe(p.out);
    }
    if p.space.watcher.Asleep? && p.space.index != p.space.seen {
      SoundIsSafe(p.space);
    }
  }

  // ------------------------------------------------------------ pads and their headers

  /** Sizes in units of four bytes. */
  ghost predicate Fours(ps: seq<Pair>, acts: seq<Action>) {
    && ps != [] && ps[0].n % 4 == 0
    && forall k :: 0 <= k < |acts| ==>
         && (acts[k].Send? ==> |acts[k].data| % 4 == 0)
         && (acts[k].FastPath? || acts[k].ReadSpace? ==> acts[k].nr % 4 == 0)
  }

  ghost predicate InFours(p: Pair) {
    p.n % 4 == 0 && p.out.pvt % 4 == 0 && p.granted % 4 == 0
  }

  lemma PlusFours(x: Index, k: Index)
    requires x % 4 == 0 && k % 4 == 0
    ensures Plus(x, k) % 4 == 0
  {
  }

  lemma FoursStep(p: Pair, a: Action)
    requires Inv(p) && Allowed(p, a) && InFours(p)
    requires (a.Send? ==> |a.data| % 4 == 0) && (a.FastPath? || a.ReadSpace? ==> a.nr % 4 == 0)
    ensures InFours(Perform(p, a)) && Perform(p, a).n == p.n
  {
    hide GrantHolds, CountIsLow, Sound, IsPow2, Ordered;
    if a.Send? {
      SendFours(p, a.data);
    }
  }

  lemma {:induction false} SendFours(p: Pair, data: seq<int>)
    requires Inv(p) && Allowed(p, Send(data)) && InFours(p) && |data| % 4 == 0
    ensures InFours(Perform(p, Send(data))) && Perform(p, Send(data)).n == p.n
  {
    SendAppends(p, data);
    hide GrantHolds, CountIsLow, Sound, IsPow2, Ordered, WouldWrap, WriteAt;
    var q := AvoidWrap(p, p.granted);
    if WouldWrap(p.out.pvt, p.n, p.granted) {
      PadIsShort(p.out.pvt, p.n, p.granted);
      RemainderOfFour(p.out.pvt, p.n);
      PlusFours(p.out.pvt, PadNeeded(p.out.pvt, p.n));
    }
    PlusFours(q.out.pvt, |data|);
  }

  /** If ring and messages come in multiples of four, every pad has room for its header, so no message that may be
      sent is kept back by PadFits. */
  lemma {:induction false} PadsFit(ps: seq<Pair>, acts: seq<Action>, i: nat)
    requires IsRun(ps, acts) && Fours(ps, acts) && i < |ps|
    ensures Inv(ps[i]) && InFours(ps[i]) && (ps[i].granted > 0 ==> PadFits(ps[i]))
  {
    EveryRun(ps, acts, i);
    if i > 0 {
      PadsFit(ps, acts, i - 1);
      FoursStep(ps[i - 1], acts[i - 1]);
    }
    hide GrantHolds, CountIsLow, Sound, IsPow2, Ordered, WouldWrap, Perform;
    var p := ps[i];
    if WouldWrap(p.out.pvt, p.n, p.granted) {
      PadIsShort(p.out.pvt, p.n, p.granted);
      RemainderOfFour(p.out.pvt, p.n);
    }
  }

  /** Whatever is sent in a run leaves the unread bytes alone. */
  lemma {:induction false} SentInRun(ps: seq<Pair>, acts: seq<Action>, i: nat)
    requires IsRun(ps, acts) && i < |acts| && acts[i].Send?
    ensures Inv(ps[i]) && Inv(ps[i + 1])
    ensures var u, w := Unread(ps[i]), Unread(ps[i + 1]); var pad := Pad(ps[i].out.pvt, ps[i].n, ps[i].granted);
      |w| == |u| + pad + |acts[i].data| && w[..|u|] == u && w[|u| + pad..] == acts[i].data
  {
    EveryRun(ps, acts, i);
    EveryRun(ps, acts, i + 1);
    SendAppends(ps[i], acts[i].data);
    hide Inv, WouldWrap, Window, WriteAt;
  }

  // ------------------------------------------------------------ retries

  /** Bytes published and not yet given back. */
  function Outstanding(p: Pair): Index {
    Diff(p.out.index, p.space.index)
  }

  /** Only a flush adds to them; every change of the consumer index otherwise takes some away. */
  lemma OutstandingShrinks(p: Pair, a: Action)
    requires Inv(p) && Allowed(p, a) && !a.Flush?
    ensures Outstanding(Perform(p, a)) <= Outstanding(p) <= p.n
    ensures Perform(p, a).space.index != p.space.index ==> Outstanding(Perform(p, a)) < Outstanding(p)
  {
    hide GrantHolds, CountIsLow, Sound, IsPow2;
    if a.Send? {
      SendFrame(p, a.data);
    }
  }

  /** What may happen while the producer asks for space: anything but sending and flushing. */
  predicate Asking(a: Action) {
    !a.Send? && !a.Flush?
  }

  ghost predicate During(p: Pair, acts: seq<Action>, q: Pair)
    requires Inv(p)
    decreases |acts|
  {
    if acts == [] then q == p
    else
      && Asking(acts[0]) && Allowed(p, acts[0])
      && (StepKeepsInv(p, acts[0]); During(Perform(p, acts[0]), acts[1..], q))
  }

  /** While the producer asks, its own indices stay put and the consumer index only moves towards the published
      producer index. */
  lemma {:induction false} DuringShrinks(p: Pair, acts: seq<Action>, q: Pair)
    requires Inv(p) && During(p, acts, q)
    ensures Inv(q) && q.n == p.n && q.out.pvt == p.out.pvt && q.out.index == p.out.index
    ensures Outstanding(q) <= Outstanding(p) && (q.space.index != p.space.index ==> Outstanding(q) < Outstanding(p))
    decreases |acts|
  {
    if acts != [] {
      hide Inv;
      StepKeepsInv(p, acts[0]);
      OutstandingShrinks(p, acts[0]);
      AskingKeeps(p, acts[0]);
      DuringShrinks(Perform(p, acts[0]), acts[1..], q);
    }
  }

  lemma AskingKeeps(p: Pair, a: Action)
    requires Inv(p) && Allowed(p, a) && Asking(a)
    ensures Perform(p, a).n == p.n && Perform(p, a).out.pvt == p.out.pvt && Perform(p, a).out.index == p.out.index
  {
    hide GrantHolds, CountIsLow, Sound, IsPow2;
  }

  /** In every run, between two flushes the consumer index takes at most as many values as bytes were published: a
      producer that reads a new index again and again is stopped within a ring's length. */
  lemma {:induction false} RetriesBounded(ps: seq<Pair>, acts: seq<Action>, i: nat, j: nat)
    requires IsRun(ps, acts) && i <= j < |ps| && forall k :: i <= k < j ==> !acts[k].Flush?
    ensures Changes(ps, i, j) + Outstanding(ps[j]) <= Outstanding(ps[i]) <= ps[i].n
    decreases j - i
  {
    EveryRun(ps, acts, i);
    EveryRun(ps, acts, j);
    if i < j {
      RetriesBounded(ps, acts, i, j - 1);
      EveryRun(ps, acts, j - 1);
      OutstandingShrinks(ps[j - 1], acts[j - 1]);
    }
    hide GrantHolds, CountIsLow, Sound, Perform, Geometry;
  }

  /** How often the consumer index changes between two states. */
  ghost function Changes(ps: seq<Pair>, i: nat, j: nat): nat
    requires i <= j < |ps|
    decreases j - i
  {
    if i == j then 0 else Changes(ps, i, j - 1) + if ps[j].space.index != ps[j - 1].space.index then 1 else 0
  }
}
