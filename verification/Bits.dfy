/** Bitwise operations on non-negative integers, by their binary digits.

    The drivers mask and shift unsigned machine words.  A word is modelled as a
    natural number, `And` is the bitwise conjunction, and shifts are
    multiplication and division by a power of two.  The lemmas turn the masks
    the drivers use into arithmetic.
  */
module Bits {

  /** Two to the power `k`. */
  function Pow2(k: nat): (p: nat)
    ensures p >= 1
  {
    if k == 0 then 1 else 2 * Pow2(k - 1)
  }

  /** `n` is a power of two. */
  predicate IsPow2(n: int) {
    n == 1 || (n > 1 && n % 2 == 0 && IsPow2(n / 2))
  }

  lemma {:induction false} Pow2IsPow2(k: nat)
    ensures IsPow2(Pow2(k))
  {
    if k > 0 {
      Pow2IsPow2(k - 1);
    }
  }

  lemma {:induction false} Exponent(n: int) returns (k: nat)
    requires IsPow2(n)
    ensures n == Pow2(k)
  {
    if n == 1 {
      k := 0;
    } else {
      k := Exponent(n / 2);
      k := k + 1;
    }
  }

  /** Bitwise conjunction. */
  function And(x: nat, y: nat): (r: nat)
    ensures r <= x && r <= y
  {
    if x == 0 || y == 0 then 0 else 2 * And(x / 2, y / 2) + (x % 2) * (y % 2)
  }

  /** Bitwise disjunction. */
  function Or(x: nat, y: nat): (r: nat)
    ensures r >= x && r >= y
  {
    x + y - And(x, y)
  }

  lemma {:induction false} Pow2Sum(a: nat, b: nat)
    ensures Pow2(a + b) == Pow2(a) * Pow2(b)
  {
    if a > 0 {
      Pow2Sum(a - 1, b);
    }
  }

  lemma {:induction false} Pow2Monotonic(a: nat, b: nat)
    requires a <= b
    ensures Pow2(a) <= Pow2(b)
  {
    if a < b {
      Pow2Monotonic(a, b - 1);
    }
  }

  /** `x & (2^k - 1)` is the remainder of `x` modulo `2^k`. */
  lemma {:induction false} AndLowMask(x: nat, k: nat)
    ensures And(x, Pow2(k) - 1) == x % Pow2(k)
  {
    if k == 0 {
    } else if x == 0 {
    } else {
      var p := Pow2(k - 1);
      AndLowMask(x / 2, k - 1);
      assert (2 * p - 1) / 2 == p - 1 && (2 * p - 1) % 2 == 1;
      HalfRemainder(x, p);
    }
  }

  lemma HalfRemainder(x: nat, p: nat)
    requires p > 0
    ensures x % (2 * p) == 2 * ((x / 2) % p) + x % 2
  {
    var q, r := (x / 2) / p, (x / 2) % p;
    assert x / 2 == p * q + r;
    assert x == (2 * p) * q + (2 * r + x % 2);
    RemainderUnique(x, 2 * p, q, 2 * r + x % 2);
  }

  lemma MulBounds(d: int, m: int)
    requires d > 0
    ensures m >= 1 ==> d * m >= d
    ensures m <= -1 ==> d * m <= -d
  {
  }

  lemma RemainderUnique(x: nat, d: nat, q: int, r: nat)
    requires d > 0 && x == d * q + r && r < d
    ensures x / d == q && x % d == r
  {
    var q', r' := x / d, x % d;
    assert d * (q - q') == r' - r;
    MulBounds(d, q - q');
  }

  /** A mask of `m` ones above `k` zeros selects that field and leaves it in place. */
  lemma {:induction false} AndField(x: nat, m: nat, k: nat)
    ensures And(x, (Pow2(m) - 1) * Pow2(k)) == ((x / Pow2(k)) % Pow2(m)) * Pow2(k)
  {
    if k == 0 {
      AndLowMask(x, m);
      assert x / 1 == x;
    } else {
      var p, f := Pow2(k - 1), Pow2(m) - 1;
      var g := ((x / 2) / p) % Pow2(m);
      assert And(x / 2, f * p) == g * p by {
        AndField(x / 2, m, k - 1);
      }
      assert (x / Pow2(k)) % Pow2(m) == g by {
        QuotientOfHalf(x, p);
      }
      MulDouble(f, p);
      MulDouble(g, p);
      AndEven(x, f * p);
    }
  }

  lemma MulDouble(f: int, p: int)
    ensures f * (2 * p) == 2 * (f * p)
  {
  }

  lemma AndEven(x: nat, y: nat)
    ensures And(x, 2 * y) == 2 * And(x / 2, y)
  {
    assert (2 * y) / 2 == y && (2 * y) % 2 == 0;
  }

  lemma QuotientOfHalf(x: nat, p: nat)
    requires p > 0
    ensures x / (2 * p) == (x / 2) / p
  {
    var q, r := (x / 2) / p, (x / 2) % p;
    assert x / 2 == p * q + r;
    assert x == (2 * p) * q + (2 * r + x % 2);
    RemainderUnique(x, 2 * p, q, 2 * r + x % 2);
  }

  /** Filling vacated low bits: `(x << k) | y` is a sum when `y` fits below bit `k`. */
  lemma {:induction false} OrShifted(x: nat, y: nat, k: nat)
    requires y < Pow2(k)
    ensures And(x * Pow2(k), y) == 0
    ensures Or(x * Pow2(k), y) == x * Pow2(k) + y
  {
    if k > 0 && y > 0 && x > 0 {
      var p := Pow2(k - 1);
      OrShifted(x, y / 2, k - 1);
      assert x * Pow2(k) == 2 * (x * p);
      assert (2 * (x * p)) / 2 == x * p && (2 * (x * p)) % 2 == 0;
    }
  }

  lemma {:induction false} AndCommutes(x: nat, y: nat)
    ensures And(x, y) == And(y, x)
  {
    if x != 0 && y != 0 {
      AndCommutes(x / 2, y / 2);
    }
  }
}
