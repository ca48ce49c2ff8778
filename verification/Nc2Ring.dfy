/** The byte ring of inc/vring.h: send-space accounting, padding and events.

    Messages are contiguous in the ring; one that would run past the end of the payload
    area is preceded by a pad message that fills the area up.  The producer remembers a
    lower bound on the free space so as not to read the consumer's index for every message.
  */
module Nc2Ring {
  import opened Bits
  import opened RingIndex

  /** A message size or pad: an unsigned short. */
  type Short = x: int | 0 <= x < 0x1_0000

  function U16(x: int): Short {
    x % 0x1_0000
  }

  // ------------------------------------------------------------ wrapping

  /** The index with its low bits masked off: the start of its pass over the payload area. */
  function Pass(x: Index, n: Index): int
    requires n > 0
  {
    x - x % n
  }

  /** The mask that the ring code uses. */
  lemma PassIsMask(x: Index, n: Index)
    requires RingSize(n)
    ensures Pass(x, n) == And(x, WRAP - n)
  {
    hide And, IsPow2, Pow2;
    var k, m := Complement(n);
    AndField(x, 32 - k, k);
    QuotientFits(x, n, m);
    RemainderUnique(x / n, m, 0, x / n);
    MaskValue(m, n);
    QuotientTimes(x, n);
  }

  lemma MaskValue(m: int, n: int)
    requires m * n == WRAP
    ensures (m - 1) * n == WRAP - n
  {
  }

  lemma QuotientTimes(x: int, n: int)
    requires n > 0
    ensures (x / n) * n == x - x % n
  {
  }

  lemma Complement(n: Index) returns (k: nat, m: nat)
    requires RingSize(n)
    ensures k <= 32 && n == Pow2(k) && m == Pow2(32 - k) && m * n == WRAP && m > 0
  {
    k := Exponent(n);
    Pow2Table();
    if k > 32 {
      Pow2Monotonic(32, k);
    }
    m := Pow2(32 - k);
    Pow2Sum(32 - k, k);
  }

  lemma QuotientFits(x: Index, n: int, m: int)
    requires n > 0 && m * n == WRAP
    ensures x / n < m
  {
    var t := x / n;
    assert x == n * t + x % n;
    assert t >= m ==> t * n >= m * n;
  }

  /** __nc2_ring_would_wrap; the mask is the complement of the size less one, in 32 bits. */
  predicate WouldWrap(prod: Index, n: Index, nr: Short)
    requires n > 0
  {
    And(prod, WRAP - n) != And(Plus(prod, nr), WRAP - n)
  }

  /** __nc2_pad_needed */
  function PadNeeded(prod: Index, n: Index): Short
    requires n > 0
  {
    U16(n - prod % n)
  }

  lemma PassBounds(x: Index, n: Index)
    requires RingSize(n)
    ensures 0 <= Pass(x, n) <= x < Pass(x, n) + n <= WRAP && Pass(x, n) % n == 0
  {
    hide IsPow2;
    var q := Pow2Divides(n);
    var t := x / n;
    assert Pass(x, n) == n * t;
    assert n * q == q * n;
    QuotientFits(x, n, q);
    MulMonotonic(t + 1, q, n);
    assert (t + 1) * n == n * t + n;
    RemainderUnique(n * t, n, t, 0);
  }

  /** A message would wrap exactly when it does not end before the end of its pass.  (One that
      would end exactly there is padded too.) */
  lemma WouldWrapIff(prod: Index, n: Index, nr: Short)
    requires RingSize(n)
    ensures WouldWrap(prod, n, nr) <==> prod % n + nr >= n
  {
    hide IsPow2, And;
    RingSizeBound(n);
    PassIsMask(prod, n);
    PassIsMask(Plus(prod, nr), n);
    PassBounds(prod, n);
    PassBounds(Plus(prod, nr), n);
    var x := prod % n;
    if x + nr < n {
      RemainderAbove(Pass(prod, n), n, x + nr);
    }
  }

  lemma RemainderAbove(b: int, n: int, r: int)
    requires n > 0 && b >= 0 && b % n == 0 && 0 <= r < n
    ensures (b + r) % n == r
  {
    RemainderUnique(b + r, n, b / n, r);
  }

  /** How many bytes of padding a message of `nr` bytes needs first. */
  function Pad(prod: Index, n: Index, nr: Short): int
    requires n > 0
  {
    if WouldWrap(prod, n, nr) then n - prod % n else 0
  }

  /** The pad never exceeds the message, so the narrowing to a short is harmless. */
  lemma PadIsShort(prod: Index, n: Index, nr: Short)
    requires RingSize(n) && WouldWrap(prod, n, nr)
    ensures 0 < Pad(prod, n, nr) <= nr && PadNeeded(prod, n) == Pad(prod, n, nr)
  {
    hide IsPow2, WouldWrap;
    WouldWrapIff(prod, n, nr);
  }

  // ------------------------------------------------------------ may I send?

  /** The slow path's requirement: message and pad, added in an unsigned short. */
  function Needed(prod: Index, n: Index, nr: Short): Short
    requires n > 0
  {
    if WouldWrap(prod, n, nr) then U16(nr + PadNeeded(prod, n)) else nr
  }

  /** Bytes that are free as far as the consumer index `cons` says. */
  function Free(prod: Index, n: Index, cons: Index): int {
    n - Diff(prod, cons)
  }

  /** The slow path asks for enough space exactly when message and pad fit an unsigned short;
      a message of less than 32768 bytes always does. */
  lemma NeededIffShort(prod: Index, n: Index, nr: Short)
    requires RingSize(n)
    ensures Needed(prod, n, nr) == nr + Pad(prod, n, nr) <==> nr + Pad(prod, n, nr) < 0x1_0000
    ensures nr < 0x8000 ==> nr + Pad(prod, n, nr) < 0x1_0000
  {
    hide WouldWrap, IsPow2;
    if WouldWrap(prod, n, nr) {
      PadIsShort(prod, n, nr);
    }
  }

  /** A message of 40000 bytes may be let through although nothing is free. */
  lemma LargeMessageOverrun()
    ensures RingSize(0x1_0000) && Needed(40000, 0x1_0000, 40000) == 0 && Pad(40000, 0x1_0000, 40000) == 25536
  {
    Pow2Table();
    PassBounds(40000, 0x1_0000);
    WouldWrapIff(40000, 0x1_0000, 40000);
  }

  /** The fast path leaves room for a pad. */
  lemma FastPathCoversPad(prod: Index, n: Index, nr: Short, available: int)
    requires RingSize(n) && available > nr * 2
    ensures nr + Pad(prod, n, nr) <= available
  {
    hide WouldWrap, IsPow2;
    if WouldWrap(prod, n, nr) {
      PadIsShort(prod, n, nr);
    }
  }

  /** After padding, a message that fits lies in one piece within the payload area. */
  lemma {:induction false} Contiguous(prod: Index, n: Index, nr: Short)
    requires RingSize(n) && nr + Pad(prod, n, nr) <= n
    ensures var p := Plus(prod, Pad(prod, n, nr)); p % n + nr <= n
    ensures Pad(prod, n, nr) > 0 ==> Plus(prod, Pad(prod, n, nr)) % n == 0
  {
    hide WouldWrap, IsPow2;
    WouldWrapIff(prod, n, nr);
    if WouldWrap(prod, n, nr) {
      EndOfPass(prod, n);
    }
  }

  /** The end of a pass is the start of the payload area again. */
  lemma EndOfPass(prod: Index, n: Index)
    requires RingSize(n)
    ensures n - prod % n < WRAP && Plus(prod, n - prod % n) % n == 0
  {
    hide IsPow2;
    RingSizeBound(n);
    var b, x: int := Pass(prod, n), prod % n;
    PassBounds(prod, n);
    NextPass(b, n);
    hide Pass;
    if b + n < WRAP {
      assert Plus(prod, n - x) == b + n;
    } else {
      assert Plus(prod, n - x) == 0;
    }
  }

  lemma NextPass(b: int, n: int)
    requires n > 0 && b >= 0 && b % n == 0
    ensures (b + n) % n == 0
  {
    RemainderUnique(b + n, n, b / n + 1, 0);
  }

  /** The four bytes of a pad's header lie before the end of the payload area if and only if the pad has four
      bytes.  Sizes that are multiples of four see to that; the header's comment asks for multiples of eight. */
  lemma PadHeaderFitsIff(prod: Index, n: Index, nr: Short)
    requires RingSize(n) && WouldWrap(prod, n, nr)
    ensures prod % n + 4 <= n <==> PadNeeded(prod, n) >= 4
    ensures n % 4 == 0 && prod % 4 == 0 ==> PadNeeded(prod, n) >= 4
  {
    PadIsShort(prod, n, nr);
    hide WouldWrap, IsPow2;
    if n % 4 == 0 && prod % 4 == 0 {
      RemainderOfFour(prod, n);
    }
  }

  lemma RemainderOfFour(x: int, n: int)
    requires n > 0 && n % 4 == 0 && x >= 0 && x % 4 == 0
    ensures (x % n) % 4 == 0 && (n - x % n) % 4 == 0 && n - x % n >= 4
  {
    var m, t, r := n / 4, x / n, x % n;
    assert x == n * t + r;
    FourTimes(m, t);
    FoursApart(r, n);
  }

  lemma FourTimes(m: int, t: int)
    ensures (4 * m) * t == 4 * (m * t)
  {
  }

  lemma FoursApart(r: int, n: int)
    requires 0 <= r < n && r % 4 == 0 && n % 4 == 0
    ensures (n - r) % 4 == 0 && n - r >= 4
  {
  }

  /** A message of 6 bytes in a ring of 8 leaves room for a pad of 2 only: its header would run past the end. */
  lemma OddSizeOverruns()
    ensures RingSize(8) && WouldWrap(6, 8, 6) && PadNeeded(6, 8) == 2 && 6 + 4 > 8
  {
    assert RingSize(8) by {
      assert IsPow2(4) && IsPow2(2);
    }
    WouldWrapIff(6, 8, 6);
  }
}
