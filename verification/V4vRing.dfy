/** The v4v receive ring (inc/v4v.h).

    Xen deposits messages in a ring of bytes: a 16-byte header followed by the payload,
    padded to a multiple of 16.  A message may run past the end of the ring and continue at
    its start.  The ring is described here by value; V4vReader holds the copying code.
  */
module V4vRing {
  import opened Bytes

  const HEADER: int := 16

  /** V4V_ROUNDUP */
  function RoundUp(a: int): int {
    (a + 15) / 16 * 16
  }

  datatype Message = Message(source: seq<int>, protocol: int, payload: seq<int>)

  datatype Ring = Ring(len: int, data: seq<int>, rx: int, tx: int)

  /** Bytes of the ring a message takes. */
  function Size(m: Message): int {
    HEADER + RoundUp(|m.payload|)
  }

  /** A ring of any length. */
  ghost predicate Sane(r: Ring) {
    0 < r.len < 0x8000_0000 && |r.data| == r.len && 0 <= r.rx < r.len && 0 <= r.tx < r.len
  }

  ghost predicate Valid(r: Ring) {
    Sane(r) && r.len % 16 == 0 && r.rx % 16 == 0 && r.tx % 16 == 0
  }

  /** The header that the reader would look at lies before the end of the ring. */
  ghost predicate Readable(r: Ring) {
    Sane(r) && (BytesToRead(r) >= HEADER ==> r.rx + HEADER <= r.len)
  }

  /** v4v_ring_bytes_to_read: the difference is taken in 32 bits and read as signed. */
  function BytesToRead(r: Ring): int {
    var ret := r.tx - r.rx;
    if ret >= 0 then ret else r.len + ret
  }

  /** The bytes that are waiting to be read. */
  function Contents(r: Ring): seq<int>
    requires Valid(r)
  {
    Circular(r.data, r.rx, BytesToRead(r))
  }

  function Le32(b: seq<int>): int
    requires |b| == 4
  {
    b[0] + 0x100 * b[1] + 0x1_0000 * b[2] + 0x100_0000 * b[3]
  }

  // ------------------------------------------------------------ what Xen deposits

  /** `e` encodes `m`; the padding may hold anything. */
  ghost predicate Encodes(e: seq<int>, m: Message) {
    && |e| == Size(m)
    && |m.source| == 6 && e[4..10] == m.source
    && Le32(e[..4]) == HEADER + |m.payload|
    && Le32(e[12..16]) == m.protocol
    && e[HEADER..HEADER + |m.payload|] == m.payload
  }

  /** `b` is the encodings of the messages of `q`, one after another. */
  ghost predicate Stream(b: seq<int>, q: seq<Message>)
    decreases |q|
  {
    if q == [] then b == []
    else |b| >= Size(q[0]) && Encodes(b[..Size(q[0])], q[0]) && Stream(b[Size(q[0])..], q[1..])
  }

  lemma {:induction false} StreamAppend(b: seq<int>, q: seq<Message>, e: seq<int>, m: Message)
    requires Stream(b, q) && Encodes(e, m)
    ensures Stream(b + e, q + [m])
    decreases |q|
  {
    if q == [] {
      assert b + e == e && q + [m] == [m] && e[..Size(m)] == e;
      assert Stream(e[Size(m)..], [m][1..]);
    } else {
      var k := Size(q[0]);
      assert (b + e)[..k] == b[..k] && (b + e)[k..] == b[k..] + e;
      assert (q + [m])[0] == q[0] && (q + [m])[1..] == q[1..] + [m];
      StreamAppend(b[k..], q[1..], e, m);
    }
  }

  /** The environment publishes a whole message: the bytes are in place behind the old ones
      before the pointer moves, and the ring never becomes completely full. */
  function Deposit(r: Ring, e: seq<int>): Ring
    requires Sane(r) && BytesToRead(r) + |e| < r.len && |e| % 16 == 0
  {
    r.(data := seq(r.len, i requires 0 <= i < r.len =>
         var k := Wrap(i - r.tx + r.len, r.len); if k < |e| then e[k] else r.data[i]),
       tx := Wrap(r.tx + |e|, r.len))
  }

  lemma AlignedWrap(x: int, k: int, len: int)
    requires x % 16 == 0 && k % 16 == 0 && len % 16 == 0
    ensures Wrap(x + k, len) % 16 == 0
  {
  }

  lemma {:induction false} DepositedByte(r: Ring, e: seq<int>, i: int)
    requires Valid(r) && BytesToRead(r) + |e| < r.len && |e| % 16 == 0 && 0 <= i < BytesToRead(r) + |e|
    ensures var n := BytesToRead(r);
      Deposit(r, e).data[Wrap(r.rx + i, r.len)] == if i < n then r.data[Wrap(r.rx + i, r.len)] else e[i - n]
  {
    var n, x := BytesToRead(r), Wrap(r.rx + i, r.len);
    assert Wrap(x - r.tx + r.len, r.len) == if i < n then r.len - n + i else i - n;
  }

  lemma DepositAppends(r: Ring, e: seq<int>)
    requires Valid(r) && BytesToRead(r) + |e| < r.len && |e| % 16 == 0
    ensures Valid(Deposit(r, e)) && Contents(Deposit(r, e)) == Contents(r) + e
  {
    AlignedWrap(r.tx, |e|, r.len);
    var d, n := Deposit(r, e), BytesToRead(r);
    assert BytesToRead(d) == n + |e|;
    forall i | 0 <= i < n + |e| ensures Contents(d)[i] == (Contents(r) + e)[i] {
      DepositedByte(r, e, i);
    }
  }

  // ------------------------------------------------------------ reading one message

  datatype Delivery = Nothing | Delivery(source: seq<int>, protocol: int, payload: seq<int>, rx: int)

  /** Where the reader's cursor ends up: past the header, past the first stretch if the
      payload wraps, and past the padding. */
  function CursorAfter(rx: int, payload: int, len: int): int {
    var p := if rx + HEADER == len then 0 else rx + HEADER;
    var bte := len - p;
    var q, l := if bte < payload then 0 else p, if bte < payload then payload - bte else payload;
    var e := q + RoundUp(l);
    if e == len then 0 else e
  }

  /** v4v_copy_out, without the copying: the next message and the cursor behind it. */
  function Next(r: Ring): Delivery
    requires Readable(r)
  {
    var btr := BytesToRead(r);
    if btr < HEADER then Nothing
    else
      var mh := r.data[r.rx..r.rx + HEADER];  // never wraps
      var l := Le32(mh[..4]);
      if btr < l || l < HEADER then Nothing
      else
        Delivery(mh[4..10], Le32(mh[12..16]),
                 Circular(r.data, Wrap(r.rx + HEADER, r.len), l - HEADER),
                 CursorAfter(r.rx, l - HEADER, r.len))
  }

  function Consume(r: Ring): Ring
    requires Readable(r) && Next(r).Delivery?
  {
    r.(rx := Next(r).rx)
  }

  lemma RoundUpMinus(a: int, b: int)
    requires b % 16 == 0
    ensures RoundUp(a - b) == RoundUp(a) - b && RoundUp(a) % 16 == 0 && a <= RoundUp(a) < a + 16
  {
    assert b == 16 * (b / 16);
  }

  lemma CursorIsSize(rx: int, payload: int, len: int)
    requires 0 <= rx < len && rx % 16 == 0 && len % 16 == 0 && 0 <= payload && HEADER + RoundUp(payload) <= len
    ensures CursorAfter(rx, payload, len) == Wrap(rx + HEADER + RoundUp(payload), len)
  {
    var p := if rx + HEADER == len then 0 else rx + HEADER;
    assert p % 16 == 0 && p + 0 <= len && rx + HEADER <= len;
    RoundUpMinus(payload, 0);
    RoundUpMinus(payload, len - p);
    hide RoundUp;
  }

  lemma CircularPrefix(data: seq<int>, from: int, n: int, k: int)
    requires 0 <= from < |data| && 0 <= k <= n <= |data|
    ensures Circular(data, from, n)[..k] == Circular(data, from, k)
  {
  }

  /** The header lies in one piece. */
  lemma HeaderInPlace(r: Ring)
    requires Valid(r) && BytesToRead(r) >= HEADER
    ensures r.rx + HEADER <= r.len && Contents(r)[..HEADER] == r.data[r.rx..r.rx + HEADER]
  {
    var a, b := Contents(r)[..HEADER], r.data[r.rx..r.rx + HEADER];
    forall i | 0 <= i < HEADER ensures a[i] == b[i] {
      assert a[i] == Contents(r)[i] == r.data[Wrap(r.rx + i, r.len)];
    }
  }

  /** The header that the reader finds is the header of the first encoding. */
  lemma {:induction false} HeaderOfHead(r: Ring, m: Message)
    requires Valid(r) && BytesToRead(r) >= Size(m) && Encodes(Contents(r)[..Size(m)], m)
    ensures r.rx + HEADER <= r.len
    ensures var mh := r.data[r.rx..r.rx + HEADER];
      Le32(mh[..4]) == HEADER + |m.payload| && mh[4..10] == m.source && Le32(mh[12..16]) == m.protocol
  {
    HeaderInPlace(r);
    hide Circular, Le32;
    var c := Contents(r);
    var e := c[..Size(m)];
    var mh := c[..HEADER];
    assert mh[..4] == e[..4] && mh[4..10] == e[4..10] && mh[12..16] == e[12..16];
  }

  lemma PayloadOfHead(r: Ring, m: Message)
    requires Valid(r) && BytesToRead(r) >= Size(m) && Encodes(Contents(r)[..Size(m)], m) && r.rx + HEADER <= r.len
    ensures Circular(r.data, Wrap(r.rx + HEADER, r.len), |m.payload|) == m.payload
  {
    var n, l := BytesToRead(r), |m.payload|;
    CircularDrop(r.data, r.rx, n, HEADER);
    CircularPrefix(r.data, Wrap(r.rx + HEADER, r.len), n - HEADER, l);
    hide Circular, Le32;
    var c := Contents(r);
    assert c[HEADER..][..l] == c[HEADER..HEADER + l];
    assert c[..Size(m)][HEADER..HEADER + l] == c[HEADER..HEADER + l];
  }

  lemma NextOfHead(r: Ring, m: Message)
    requires Valid(r) && BytesToRead(r) >= Size(m) && Encodes(Contents(r)[..Size(m)], m)
    ensures Next(r) == Delivery(m.source, m.protocol, m.payload, Wrap(r.rx + Size(m), r.len))
  {
    HeaderOfHead(r, m);
    PayloadOfHead(r, m);
    CursorIsSize(r.rx, |m.payload|, r.len);
    hide Circular, Encodes, Le32, CursorAfter;
  }

  /** Moving the cursor past `k` bytes drops them from the contents. */
  lemma {:induction false} SkipBytes(r: Ring, k: int)
    requires Valid(r) && 0 <= k <= BytesToRead(r) && k % 16 == 0
    ensures var s := r.(rx := Wrap(r.rx + k, r.len)); Valid(s) && Contents(s) == Contents(r)[k..]
  {
    AlignedWrap(r.rx, k, r.len);
    SkipCount(r, k);
    hide Circular, BytesToRead;
    CircularDrop(r.data, r.rx, BytesToRead(r), k);
  }

  lemma SkipCount(r: Ring, k: int)
    requires Valid(r) && 0 <= k <= BytesToRead(r)
    ensures BytesToRead(r.(rx := Wrap(r.rx + k, r.len))) == BytesToRead(r) - k <= r.len
  {
  }

  lemma HeadTaken(r: Ring, m: Message)
    requires Valid(r) && BytesToRead(r) >= Size(m) && Encodes(Contents(r)[..Size(m)], m)
    ensures Next(r).Delivery? && Message(Next(r).source, Next(r).protocol, Next(r).payload) == m
    ensures Valid(Consume(r)) && Contents(Consume(r)) == Contents(r)[Size(m)..]
  {
    NextOfHead(r, m);
    RoundUpMinus(|m.payload|, 0);
    hide Circular, Encodes, Next, Valid, RoundUp;
    SkipBytes(r, Size(m));
  }

  /** Reading delivers the oldest message, whole and across any wrap, and leaves the rest. */
  lemma NextIsHead(r: Ring, q: seq<Message>)
    requires Valid(r) && Stream(Contents(r), q)
    ensures q == [] ==> Next(r) == Nothing
    ensures q != [] ==>
      && Next(r).Delivery?
      && Message(Next(r).source, Next(r).protocol, Next(r).payload) == q[0]
      && Valid(Consume(r)) && Stream(Contents(Consume(r)), q[1..])
  {
    assert |Contents(r)| == BytesToRead(r);
    if q != [] {
      hide Contents, Encodes, Next, Valid, BytesToRead, Size;
      HeadTaken(r, q[0]);
    }
  }

  // ------------------------------------------------------------ whole runs

  datatype Event = Sent(e: seq<int>, m: Message) | Received

  datatype History = History(r: Ring, sent: seq<Message>, received: seq<Message>)

  ghost predicate Possible(h: History, v: Event) {
    && Sane(h.r)
    && match v
       case Sent(e, m) => Encodes(e, m) && |e| % 16 == 0 && BytesToRead(h.r) + |e| < h.r.len
       case Received => Readable(h.r)
  }

  ghost function After(h: History, v: Event): History
    requires Possible(h, v)
  {
    match v
    case Sent(e, m) => History(Deposit(h.r, e), h.sent + [m], h.received)
    case Received =>
      var d := Next(h.r);
      if d.Nothing? then h
      else History(Consume(h.r), h.sent, h.received + [Message(d.source, d.protocol, d.payload)])
  }

  ghost predicate IsRun(hs: seq<History>, vs: seq<Event>) {
    && |hs| == |vs| + 1
    && Sane(hs[0].r) && hs[0].r.rx == hs[0].r.tx && hs[0].r.rx % 16 == 0 && hs[0].sent == hs[0].received == []
    && forall i :: 0 <= i < |vs| ==> Possible(hs[i], vs[i]) && hs[i + 1] == After(hs[i], vs[i])
  }

  ghost predicate InOrder(h: History) {
    Valid(h.r) && h.received <= h.sent && Stream(Contents(h.r), h.sent[|h.received|..])
  }

  lemma SentInOrder(h: History, e: seq<int>, m: Message)
    requires InOrder(h) && Possible(h, Sent(e, m))
    ensures InOrder(After(h, Sent(e, m)))
  {
    hide Valid, Contents, Stream, Encodes, Deposit, BytesToRead;
    DepositAppends(h.r, e);
    StreamAppend(Contents(h.r), h.sent[|h.received|..], e, m);
    assert (h.sent + [m])[|h.received|..] == h.sent[|h.received|..] + [m];
  }

  lemma ReceivedInOrder(h: History)
    requires InOrder(h) && Readable(h.r)
    ensures InOrder(After(h, Received))
  {
    hide Valid, Contents, Stream, Next, Consume;
    var k := |h.received|;
    var q := h.sent[k..];
    NextIsHead(h.r, q);
    if q != [] {
      assert q[1..] == h.sent[k + 1..];
      assert h.sent[..k + 1] == h.received + [q[0]];
    }
  }

  /** In every run the messages received are the first ones sent, in order and unaltered, and
      the rest are in the ring. */
  lemma {:induction false} Fifo(hs: seq<History>, vs: seq<Event>, i: nat)
    requires IsRun(hs, vs) && i < |hs| && hs[0].r.len % 16 == 0
    ensures Valid(hs[i].r) && Readable(hs[i].r) && hs[i].received <= hs[i].sent
    ensures Stream(Contents(hs[i].r), hs[i].sent[|hs[i].received|..])
  {
    hide Possible, After, Stream, Contents;
    if i == 0 {
      StartsInOrder(hs[0]);
    } else {
      Fifo(hs, vs, i - 1);
      hide Sane, Readable;
      var v := vs[i - 1];
      if v.Sent? {
        SentInOrder(hs[i - 1], v.e, v.m);
      } else {
        ReceivedInOrder(hs[i - 1]);
      }
      assert vs[i - 1] == v;
      ValidIsReadable(hs[i].r);
    }
  }

  lemma StartsInOrder(h: History)
    requires Sane(h.r) && h.r.rx == h.r.tx && h.r.rx % 16 == 0 && h.r.len % 16 == 0 && h.sent == h.received == []
    ensures InOrder(h) && Readable(h.r)
  {
    assert h.sent[0..] == [];
  }

  lemma ValidIsReadable(r: Ring)
    requires Valid(r)
    ensures Readable(r)
  {
  }

  // ------------------------------------------------------------ other ring lengths

  /** A message without payload, and its encoding. */
  function Empty(): Message {
    Message([0, 0, 0, 0, 0, 0], 0, [])
  }

  function EmptyBytes(): seq<int> {
    [16, 0, 0, 0, 0, 0, 0, 0, 0, 0, 0, 0, 0, 0, 0, 0]
  }

  lemma EmptyEncodes()
    ensures Encodes(EmptyBytes(), Empty()) && |EmptyBytes()| == 16
  {
    var e := EmptyBytes();
    assert e[..4] == [16, 0, 0, 0] && e[4..10] == [0, 0, 0, 0, 0, 0] && e[12..16] == [0, 0, 0, 0];
    assert e[HEADER..HEADER] == [];
  }

  /** Depositing and reading such a message in an empty ring moves both pointers on by 16 bytes. */
  lemma {:induction false} EmptyTurn(r: Ring)
    requires Sane(r) && r.rx == r.tx && 16 < r.len && r.rx + HEADER < r.len
    ensures var d := Deposit(r, EmptyBytes());
      && Readable(d) && Next(d).Delivery?
      && Sane(Consume(d)) && Consume(d).rx == Consume(d).tx == r.rx + HEADER && Consume(d).len == r.len
  {
    EmptyEncodes();
    var e := EmptyBytes();
    var d := Deposit(r, e);
    assert BytesToRead(d) == 16;
    var mh := d.data[r.rx..r.rx + HEADER];
    forall i | 0 <= i < HEADER ensures mh[i] == e[i] {
      assert Wrap(r.rx + i - r.tx + r.len, r.len) == i;
    }
    assert mh == e;
  }

  lemma {:induction false} RunOn(hs: seq<History>, vs: seq<Event>, v: Event)
    requires IsRun(hs, vs) && Possible(hs[|vs|], v)
    ensures IsRun(hs + [After(hs[|vs|], v)], vs + [v])
  {
    hide Possible, After;
    var gs, us := hs + [After(hs[|vs|], v)], vs + [v];
    forall i | 0 <= i < |us| ensures Possible(gs[i], us[i]) && gs[i + 1] == After(gs[i], us[i]) {
      if i < |vs| {
        assert hs[i + 1] == After(hs[i], vs[i]);
      }
    }
  }

  ghost predicate RunTo(hs: seq<History>, vs: seq<Event>, h: History, len: int) {
    IsRun(hs, vs) && |hs| == |vs| + 1 && hs[|vs|] == h && hs[0].r.len == len
  }

  lemma {:induction false} Go(hs0: seq<History>, vs0: seq<Event>, h: History, len: int, v: Event)
    returns (hs: seq<History>, vs: seq<Event>)
    requires RunTo(hs0, vs0, h, len) && Possible(h, v)
    ensures RunTo(hs, vs, After(h, v), len)
  {
    hide Possible, After, IsRun;
    RunOn(hs0, vs0, v);
    hs, vs := hs0 + [After(h, v)], vs0 + [v];
    Starts(hs0, vs0);
  }

  lemma Starts(hs: seq<History>, vs: seq<Event>)
    requires IsRun(hs, vs)
    ensures |hs| == |vs| + 1
  {
  }

  /** A run of empty messages that leaves both pointers at `16 * k`. */
  lemma {:induction false} EmptyRun(len: int, k: nat) returns (hs: seq<History>, vs: seq<Event>, h: History)
    requires 16 < len < 0x8000_0000 && len % 16 == 8 && 16 * k < len
    ensures RunTo(hs, vs, h, len) && Sane(h.r) && h.r.rx == h.r.tx == 16 * k && h.r.len == len
  {
    if k == 0 {
      h := History(Ring(len, seq(len, _ => 0), 0, 0), [], []);
      hs, vs := [h], [];
    } else {
      hs, vs, h := EmptyRun(len, k - 1);
      EmptyEncodes();
      EmptyTurn(h.r);
      hide IsRun, Deposit, Next, Encodes;
      var v := Sent(EmptyBytes(), Empty());
      hs, vs := Go(hs, vs, h, len, v);
      h := After(h, v);
      hs, vs := Go(hs, vs, h, len, Received);
      h := After(h, Received);
    }
  }

  /** If the length is 8 more than a multiple of 16, empty messages bring the cursor to 8 bytes before the end, and the
      header of the next message runs past it. */
  lemma {:induction false} MisplacedHeader(len: int) returns (hs: seq<History>, vs: seq<Event>)
    requires 16 < len < 0x8000_0000 && len % 16 == 8
    ensures IsRun(hs, vs) && hs[0].r.len == len && Sane(hs[|vs|].r) && !Readable(hs[|vs|].r)
  {
    var h;
    hs, vs, h := EmptyRun(len, len / 16);
    EmptyEncodes();
    hide IsRun, Encodes;
    var v := Sent(EmptyBytes(), Empty());
    var g := After(h, v);
    hs, vs := Go(hs, vs, h, len, v);
    assert g.r.tx == Wrap(h.r.tx + 16, len);
  }

  /** Every run on rings of this length finds its headers in one piece. */
  ghost predicate HeadersInPlace(len: int) {
    forall hs: seq<History>, vs: seq<Event> :: IsRun(hs, vs) && hs[0].r.len == len ==> Readable(hs[|vs|].r)
  }

  /** Among ring lengths that are multiples of 8 and can hold a message at all, the multiples of 16 are exactly
      those for which no run meets a header that is not in one piece. */
  lemma HeadersInPlaceIff(len: int)
    requires 16 < len < 0x8000_0000 && len % 8 == 0
    ensures HeadersInPlace(len) <==> len % 16 == 0
  {
    hide Possible, After, Readable, Sane;
    if len % 16 == 0 {
      forall hs: seq<History>, vs: seq<Event> | IsRun(hs, vs) && hs[0].r.len == len
        ensures Readable(hs[|vs|].r)
      {
        Fifo(hs, vs, |vs|);
      }
    } else {
      var hs, vs := MisplacedHeader(len);
      assert IsRun(hs, vs) && hs[0].r.len == len;
    }
  }
}
