/** Free-running 32-bit ring indices (inc/ring.h).

    An index is an unsigned 32-bit word that is never reduced to the ring size;
    it wraps at 2^32 and is masked only when a slot is accessed.
  */
module RingIndex {
  import opened Bits

  const WRAP: int := 0x1_0000_0000

  type Index = x: int | 0 <= x < 0x1_0000_0000

  /** Addition of unsigned 32-bit words. */
  function Plus(x: Index, c: Index): Index {
    if x + c < WRAP then x + c else x + c - WRAP
  }

  /** Subtraction of unsigned 32-bit words; how far `x` is ahead of `y`. */
  function Diff(x: Index, y: Index): Index {
    if x >= y then x - y else x - y + WRAP
  }

  /** Both are arithmetic modulo 2^32, and they undo each other. */
  lemma IndexArithmetic(x: Index, y: Index)
    ensures Plus(x, y) == (x + y) % WRAP && Diff(x, y) == (x - y) % WRAP
    ensures Plus(y, Diff(x, y)) == x && Diff(Plus(x, y), y) == x
  {
  }

  // ------------------------------------------------------------ ring sizes

  // The rounding macros, each on an argument that its caller has already
  // narrowed to twice the width of the half it inspects.

  function Round2(x: nat): nat {
    if And(x, 2) != 0 then 2 else And(x, 1)
  }

  function Round4(x: nat): nat {
    if And(x, 0xc) != 0 then Round2(x / 4) * 4 else Round2(x)
  }

  function Round8(x: nat): nat {
    if And(x, 0xf0) != 0 then Round4(x / 16) * 16 else Round4(x)
  }

  function Round16(x: nat): nat {
    if And(x, 0xff00) != 0 then Round8(x / 0x100) * 0x100 else Round8(x)
  }

  function Round32(x: nat): nat {
    if And(x, 0xffff_0000) != 0 then Round16(x / 0x1_0000) * 0x1_0000 else Round16(x)
  }

  /** `p` is the largest power of two that does not exceed `x`. */
  ghost predicate LargestPow2(p: nat, x: nat) {
    IsPow2(p) && p <= x < 2 * p
  }

  lemma QuotientBelow(x: nat, p: nat)
    requires p > 0 && x < p * p
    ensures x / p < p && (x / p) % p == x / p
    ensures x / p != 0 <==> x >= p
  {
    var q := x / p;
    assert x == p * q + x % p;
    if q >= p {
      MulMonotonic(p, q, p);
      assert false;
    }
    Bits.RemainderUnique(q, p, 0, q);
  }

  lemma HighHalf(x: nat, k: nat)
    requires x < Pow2(k) * Pow2(k)
    ensures And(x, (Pow2(k) - 1) * Pow2(k)) != 0 <==> x >= Pow2(k)
    ensures x / Pow2(k) < Pow2(k)
  {
    AndField(x, k, k);
    QuotientBelow(x, Pow2(k));
  }

  lemma QuotientBounds(x: nat, p: nat, r: nat)
    requires p > 0 && r <= x / p < 2 * r
    ensures r * p <= x < 2 * (r * p)
  {
    var q := x / p;
    assert x == p * q + x % p;
    MulMonotonic(r, q, p);
    MulMonotonic(q + 1, 2 * r, p);
  }

  lemma MulMonotonic(a: nat, b: nat, p: nat)
    requires a <= b
    ensures a * p <= b * p
  {
  }

  lemma ProductIsPow2(r: nat, p: nat)
    requires IsPow2(r) && IsPow2(p)
    ensures IsPow2(r * p)
  {
    var e := Exponent(r);
    var k := Exponent(p);
    Pow2Sum(e, k);
    Pow2IsPow2(e + k);
  }

  lemma Round4Largest(x: nat)
    requires 0 < x < 16
    ensures LargestPow2(Round4(x), x)
  {
    assert Pow2(0) == 1 && Pow2(1) == 2 && Pow2(2) == 4 && Pow2(3) == 8;
    HighHalf(x, 2);
    var y := if x >= 4 then x / 4 else x;
    HighHalf(y, 1);
    AndLowMask(y, 1);
  }

  lemma Round8Largest(x: nat)
    requires 0 < x < 0x100
    ensures LargestPow2(Round8(x), x)
  {
    Pow2Table();
    HighHalf(x, 4);
    if x >= 16 {
      Round4Largest(x / 16);
      QuotientBounds(x, 16, Round4(x / 16));
      ProductIsPow2(Round4(x / 16), 16);
    } else {
      Round4Largest(x);
    }
  }

  lemma Round16Largest(x: nat)
    requires 0 < x < 0x1_0000
    ensures LargestPow2(Round16(x), x)
  {
    Pow2Table();
    HighHalf(x, 8);
    if x >= 0x100 {
      Round8Largest(x / 0x100);
      QuotientBounds(x, 0x100, Round8(x / 0x100));
      ProductIsPow2(Round8(x / 0x100), 0x100);
    } else {
      Round8Largest(x);
    }
  }

  lemma Pow2Table()
    ensures Pow2(4) == 0x10 && Pow2(8) == 0x100 && Pow2(16) == 0x1_0000 && Pow2(32) == WRAP
    ensures IsPow2(0x10) && IsPow2(0x100) && IsPow2(0x1_0000)
  {
    assert Pow2(4) == 16;
    Pow2Sum(4, 4);
    Pow2Sum(8, 8);
    Pow2Sum(16, 16);
    Pow2IsPow2(4);
    Pow2IsPow2(8);
    Pow2IsPow2(16);
  }

  /** `__RD32` rounds every non-zero word down to the nearest power of two. */
  lemma Round32Largest(x: Index)
    ensures x > 0 ==> LargestPow2(Round32(x), x)
    ensures x == 0 ==> Round32(x) == 0
  {
    if x > 0 {
      Pow2Table();
      HighHalf(x, 16);
      if x >= 0x1_0000 {
        Round16Largest(x / 0x1_0000);
        QuotientBounds(x, 0x1_0000, Round16(x / 0x1_0000));
        ProductIsPow2(Round16(x / 0x1_0000), 0x1_0000);
      } else {
        Round16Largest(x);
      }
    }
  }

  // ------------------------------------------------------------ slots

  /** A legal ring size: what `__RING_SIZE` yields for a non-empty ring. */
  ghost predicate RingSize(n: int) {
    n > 0 && IsPow2(n) && n < WRAP
  }

  /** The slot an index refers to. */
  function Slot(i: Index, n: int): (s: nat)
    requires n > 0
    ensures s < n
  {
    i % n
  }

  lemma RingSizeBound(n: int)
    requires RingSize(n)
    ensures n <= 0x8000_0000
  {
    var q := Pow2Divides(n);
    if q >= 2 {
      MulMonotonic(2, q, n);
    }
  }

  /** The ring macros find the slot by masking with the ring size less one. */
  lemma SlotIsMask(i: Index, n: int)
    requires RingSize(n)
    ensures Slot(i, n) == And(i, n - 1)
  {
    var k := Exponent(n);
    AndLowMask(i, k);
  }

  lemma Pow2Divides(n: int) returns (q: int)
    requires RingSize(n)
    ensures q > 0 && n * q == WRAP
  {
    var k := Exponent(n);
    Pow2Table();
    if k >= 32 {
      Pow2Monotonic(32, k);
    }
    Pow2Sum(k, 32 - k);
    q := Pow2(32 - k);
  }

  /** Indices less than a ring apart never share a slot, even across the wrap. */
  lemma SlotsDistinct(base: Index, i: int, j: int, n: int)
    requires RingSize(n)
    requires 0 <= i < n && 0 <= j < n
    ensures Slot(Plus(base, i), n) == Slot(Plus(base, j), n) ==> i == j
  {
    var x, y := Plus(base, i), Plus(base, j);
    if x % n == y % n {
      var q := Pow2Divides(n);
      var w := (if base + i < WRAP then 0 else 1) - (if base + j < WRAP then 0 else 1);
      assert i - j == (x - y) + w * WRAP;
      Multiples(n, x, y, w, q);
      MulBounds(n, x / n - y / n + w * q);
    }
  }

  lemma Multiples(n: int, x: int, y: int, w: int, q: int)
    requires n > 0 && x % n == y % n
    ensures (x - y) + w * (n * q) == n * (x / n - y / n + w * q)
  {
    assert x - y == n * (x / n) - n * (y / n);
    assert w * (n * q) == n * (w * q);
  }
}
