/** The copying code of inc/v4v.h, on arrays. */
module V4vReader {
  import opened Numbers
  import opened Bytes
  import opened V4vRing

  /** v4v_memcpy_skip: as memcpy, but the first `skip` bytes are passed over; returns what is
      left to skip.  The destination may start before the buffer by what is skipped. */
  method MemcpySkip(dst: array<int>, at: int, src: array<int>, from: int, n: int, skip: nat) returns (left: nat)
    requires dst != src && 0 <= n && 0 <= from && from + n <= src.Length
    requires skip < n ==> 0 <= at + skip && at + n <= dst.Length
    modifies dst
    ensures left == skip - Min(skip, n)
    ensures skip >= n ==> dst[..] == old(dst[..])
    ensures skip < n ==> dst[..] == old(dst[..at + skip]) + src[from + skip..from + n] + old(dst[at + n..])
  {
    if skip == 0 {
      if n > 0 {
        Memcpy(dst, at, src, from, n);
      }
      return 0;
    }
    if skip >= n {
      return skip - n;
    }
    Memcpy(dst, at + skip, src, from + skip, n - skip);
    return 0;
  }

  /** Where the bytes of the payload from `at` on are found. */
  lemma PieceOf(data: seq<int>, p: int, l: int, at: int, from: int, n: int)
    requires 0 <= p < |data| && 0 <= l <= |data| && 0 <= n && 0 <= at && at + n <= l
    requires (from == p + at && from + n <= |data|) || (p + l > |data| && at >= |data| - p && from == p + at - |data|)
    ensures data[from..from + n] == Circular(data, p, l)[at..at + n]
  {
    var c := Circular(data, p, l);
    var a, b := data[from..from + n], c[at..at + n];
    forall i | 0 <= i < n ensures a[i] == b[i] {
      assert c[at + i] == data[Wrap(p + (at + i), |data|)];
    }
  }

  /** Two consecutive copies amount to one. */
  lemma Joined(payload: seq<int>, at: int, n: int, was: seq<int>, orig: seq<int>)
    requires 0 <= at && 0 <= n && at + n <= |payload| && at + n <= |orig| && was == payload[..at] + orig[at..]
    ensures was[..at] + payload[at..at + n] + was[at + n..] == payload[..at + n] + orig[at + n..]
  {
  }

  class Reader {
    const ring: array<int>
    var rxPtr: int
    var txPtr: int

    constructor (ring: array<int>, rx: int, tx: int)
      ensures this.ring == ring && rxPtr == rx && txPtr == tx
    {
      this.ring := ring;
      rxPtr, txPtr := rx, tx;
    }

    ghost function View(): Ring
      reads this, ring
    {
      Ring(ring.Length, ring[..], rxPtr, txPtr)
    }

    /** The environment deposits only messages whose length covers their own header. */
    ghost predicate WellFormed()
      reads this, ring
    {
      Valid(View()) && (BytesToRead(View()) >= HEADER ==> Le32(ring[rxPtr..rxPtr + HEADER][..4]) >= HEADER)
    }

    /** v4v_copy_out: the first `t` bytes of the next message, across any wrap. */
    method CopyOut(buf: array?<int>, t: nat, consume: bool) returns (ret: int, source: seq<int>, protocol: int)
      requires WellFormed() && (buf != null ==> buf != ring && t <= buf.Length)
      modifies `rxPtr, buf
      ensures old(Next(View())).Nothing? ==>
        ret == -1 && rxPtr == old(rxPtr) && (buf != null ==> buf[..] == old(buf[..]))
      ensures old(Next(View())).Delivery? ==>
        var d := old(Next(View()));
        && ret == |d.payload| && source == d.source && protocol == d.protocol
        && rxPtr == (if consume then d.rx else old(rxPtr))
        && (buf != null ==> var k := Min(t, |d.payload|); buf[..] == d.payload[..k] + old(buf[k..]))
    {
      source, protocol := [], 0;
      var btr := if txPtr - rxPtr >= 0 then txPtr - rxPtr else ring.Length + (txPtr - rxPtr);
      if btr < HEADER {
        return -1, source, protocol;
      }
      var mh := ring[rxPtr..rxPtr + HEADER];
      var len := Le32(mh[..4]);
      if btr < len {
        return -1, source, protocol;
      }
      source, protocol := mh[4..10], Le32(mh[12..16]);
      ghost var data := ring[..];
      var rxp := rxPtr + HEADER;
      if rxp == ring.Length {
        rxp := 0;
      }
      len := len - HEADER;
      ret := len;
      var left := CopyPayload(buf, t, rxp, len);
      rxp := left;
      if consume {
        rxPtr := rxp;
      }
    }

    /** The two copies of v4v_copy_out; returns the cursor behind the message. */
    method CopyPayload(buf: array?<int>, t: nat, start: int, len: int) returns (rxp: int)
      requires 0 <= start < ring.Length && 0 <= len <= ring.Length && (buf != null ==> buf != ring && t <= buf.Length)
      modifies buf
      ensures buf != null ==>
        var k := Min(t, len); buf[..] == Circular(ring[..], start, len)[..k] + old(buf[k..])
      ensures var wraps := ring.Length - start < len;
        var e := (if wraps then 0 else start) + RoundUp(if wraps then len - (ring.Length - start) else len);
        rxp == if e == ring.Length then 0 else e
    {
      hide Circular, RoundUp;
      ghost var data := ring[..];
      ghost var payload := Circular(data, start, len);
      rxp := start;
      var l, room, at := len, t, 0;
      var bte := ring.Length - rxp;
      if bte < l {
        if buf != null {
          at := Min(room, bte);
          PieceOf(data, start, len, 0, rxp, at);
          Memcpy(buf, 0, ring, rxp, at);
          assert ring[rxp..rxp + at] == data[rxp..rxp + at];
          assert buf[..] == payload[..at] + old(buf[at..]);
        }
        rxp := 0;
        l := l - bte;
        room := if room < bte then 0 else room - bte;
      }
      if buf != null && room != 0 {
        var n := Min(room, l);
        PieceOf(data, start, len, at, rxp, n);
        assert ring[rxp..rxp + n] == data[rxp..rxp + n];
        ghost var was := buf[..];
        Memcpy(buf, at, ring, rxp, n);
        Joined(payload, at, n, was, old(buf[..]));
      }
      rxp := rxp + RoundUp(l);
      if rxp == ring.Length {
        rxp := 0;
      }
    }

    /** v4v_copy_out_offset: payload bytes `skip` to `t` of the next message. */
    method CopyOutOffset(buf: array<int>, t: nat, consume: bool, skip: nat)
      returns (ret: int, source: seq<int>, protocol: int)
      requires WellFormed() && buf != ring && t <= buf.Length + skip
      modifies `rxPtr, buf
      ensures old(Next(View())).Nothing? ==> ret == -1 && rxPtr == old(rxPtr) && buf[..] == old(buf[..])
      ensures old(Next(View())).Delivery? ==>
        var d := old(Next(View()));
        && ret == |d.payload| && source == d.source && protocol == d.protocol
        && rxPtr == (if consume then d.rx else old(rxPtr))
        && var k := Min(t, |d.payload|); var j := Min(skip, k);
           buf[..] == d.payload[j..k] + old(buf[k - j..])
    {
      source, protocol := [], 0;
      var btr := if txPtr - rxPtr >= 0 then txPtr - rxPtr else ring.Length + (txPtr - rxPtr);
      if btr < HEADER {
        return -1, source, protocol;
      }
      var mh := ring[rxPtr..rxPtr + HEADER];
      var len := Le32(mh[..4]);
      if btr < len {
        return -1, source, protocol;
      }
      source, protocol := mh[4..10], Le32(mh[12..16]);
      var rxp := rxPtr + HEADER;
      if rxp == ring.Length {
        rxp := 0;
      }
      len := len - HEADER;
      ret := len;
      rxp := SkipPayload(buf, t, rxp, len, skip);
      if consume {
        rxPtr := rxp;
      }
    }

    /** The two copies of v4v_copy_out_offset. */
    method SkipPayload(buf: array<int>, t: nat, start: int, len: int, skip: nat) returns (rxp: int)
      requires 0 <= start < ring.Length && 0 <= len <= ring.Length && buf != ring && t <= buf.Length + skip
      modifies buf
      ensures var k := Min(t, len); var j := Min(skip, k);
        buf[..] == Circular(ring[..], start, len)[j..k] + old(buf[k - j..])
      ensures var wraps := ring.Length - start < len;
        var e := (if wraps then 0 else start) + RoundUp(if wraps then len - (ring.Length - start) else len);
        rxp == if e == ring.Length then 0 else e
    {
      hide Circular, Skipped, RoundUp;
      ghost var data, orig := ring[..], buf[..];
      ghost var payload := Circular(data, start, len);
      SkippedNone(payload, skip, orig);
      rxp := start;
      var l, room, toSkip := len, t, skip;
      var at: int := 0 - skip;     // the destination starts `skip` bytes early
      ghost var copied: int := 0;  // payload bytes dealt with
      var bte := ring.Length - rxp;
      if bte < l {
        var n := Min(room, bte);
        PieceOf(data, start, len, 0, rxp, n);
        toSkip := SkipPiece(buf, at, rxp, n, toSkip, skip, payload, orig);
        assert ring[..] == data;
        at, copied := at + n, copied + n;
        rxp := 0;
        l := l - bte;
        room := if room < bte then 0 else room - bte;
      }
      if room != 0 {
        var n := Min(room, l);
        PieceOf(data, start, len, copied, rxp, n);
        toSkip := SkipPiece(buf, at, rxp, n, toSkip, skip, payload, orig);
        assert ring[..] == data;
        copied := copied + n;
      }
      assert copied == Min(t, len);
      SkippedAll(payload, copied, skip, orig, buf[..]);
      rxp := rxp + RoundUp(l);
      if rxp == ring.Length {
        rxp := 0;
      }
    }

    /** One of those copies: the piece of the payload that follows the `at + skip` bytes dealt with. */
    method SkipPiece(buf: array<int>, at: int, from: int, n: int, toSkip: nat,
                     ghost skip: nat, ghost payload: seq<int>, ghost orig: seq<int>) returns (left: nat)
      requires buf != ring && |orig| == buf.Length
      requires Skipped(payload, at + skip, skip, orig, buf[..]) && toSkip == skip - Min(skip, at + skip)
      requires 0 <= n && at + skip + n <= |payload| && at + n <= buf.Length && 0 <= from && from + n <= ring.Length
      requires ring[..][from..from + n] == payload[at + skip..at + skip + n]
      modifies buf
      ensures Skipped(payload, at + skip + n, skip, orig, buf[..]) && left == skip - Min(skip, at + skip + n)
    {
      ghost var was, piece := buf[..], ring[..][from..from + n];
      left := MemcpySkip(buf, at, ring, from, n, toSkip);
      assert toSkip < n ==> ring[from + toSkip..from + n] == piece[toSkip..];
      SkippedMore(payload, piece, at + skip, n, skip, orig, was, buf[..]);
    }
  }

  /** After `k` payload bytes have been dealt with, those from `skip` on are in the buffer. */
  ghost predicate Skipped(payload: seq<int>, k: int, skip: nat, orig: seq<int>, now: seq<int>) {
    && 0 <= k <= |payload| && k - Min(skip, k) <= |orig|
    && now == payload[Min(skip, k)..k] + orig[k - Min(skip, k)..]
  }

  lemma SkippedNone(payload: seq<int>, skip: nat, orig: seq<int>)
    ensures Skipped(payload, 0, skip, orig, orig)
  {
  }

  lemma {:induction false} SkippedAll(payload: seq<int>, k: int, skip: nat, orig: seq<int>, now: seq<int>)
    requires Skipped(payload, k, skip, orig, now)
    ensures var j := Min(skip, k); 0 <= j <= k <= |payload| && k - j <= |orig| && now == payload[j..k] + orig[k - j..]
  {
  }

  lemma {:induction false} SkippedMore(payload: seq<int>, piece: seq<int>, k: int, n: int, skip: nat,
                     orig: seq<int>, was: seq<int>, now: seq<int>)
    requires Skipped(payload, k, skip, orig, was)
    requires 0 <= n && k + n <= |payload| && piece == payload[k..k + n] && k + n - skip <= |orig|
    requires var left := skip - Min(skip, k);
      && (left >= n ==> now == was)
      && (left < n ==> |was| == |orig| && now == was[..k - skip + left] + piece[left..] + was[k + n - skip..])
    ensures Skipped(payload, k + n, skip, orig, now)
  {
    var left := skip - Min(skip, k);
    if left < n {
      if skip >= k {
        assert was == orig;
        assert piece[left..] == payload[skip..k + n];
      } else {
        assert payload[skip..k] + payload[k..k + n] == payload[skip..k + n];
      }
    }
  }
}
