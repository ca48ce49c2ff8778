/** The Internet checksum of net/xennet_common.h (sections 1 and 2 of RFC 1071).

    The code adds 16-bit words, as a little-endian machine loads them, into a
    32-bit accumulator and folds the carries at the end.
  */
module Checksum {
  import opened RingIndex

  type Byte = x: int | 0 <= x < 256

  type Half = x: int | 0 <= x < 0x1_0000

  function Word(b: seq<Byte>, x: nat): Half
    requires 2 * x + 1 < |b|
  {
    var low: int, high: int := b[2 * x], b[2 * x + 1];
    low + 256 * high
  }

  /** The 16-bit words of a buffer; a last odd byte is padded with zero. */
  function Words(b: seq<Byte>): (w: seq<Half>)
    ensures |w| == (|b| + 1) / 2
  {
    if b == [] then []
    else if |b| == 1 then [b[0]]
    else [Word(b, 0)] + Words(b[2..])
  }

  /** The sum of the words, carries and all. */
  function Total(w: seq<Half>): (t: nat)
    ensures t <= 65535 * |w|
  {
    if w == [] then 0 else w[0] + Total(w[1..])
  }

  /** One's complement addition: the carry comes back in at the bottom. */
  function OnesAdd(x: Half, y: Half): Half {
    if x + y < 0x1_0000 then x + y else x + y - 0x1_0000 + 1
  }

  /** The sum that RFC 1071 defines. */
  function OnesSum(w: seq<Half>): Half {
    if w == [] then 0 else OnesAdd(w[0], OnesSum(w[1..]))
  }

  // ------------------------------------------------------------ the code

  lemma {:induction false} TotalTail(b: seq<Byte>, x: nat)
    requires 2 * x <= |b|
    ensures Words(b[2 * x..]) == if 2 * x == |b| then [] else if 2 * x + 1 == |b| then [b[2 * x]]
                                 else [Word(b, x)] + Words(b[2 * (x + 1)..])
  {
    if 2 * x + 1 < |b| {
      assert b[2 * x..][2..] == b[2 * (x + 1)..];
    }
  }

  lemma AddWraps(s: int, exact: int, v: int)
    requires s == exact % WRAP
    ensures (s + v) % WRAP == (exact + v) % WRAP
  {
  }

  /** acc_ip_csum: the odd byte first, then the words, in 32-bit arithmetic. */
  method Accumulate(b: seq<Byte>, start: nat) returns (s: nat)
    requires start < WRAP
    ensures s == (start + Total(Words(b))) % WRAP
  {
    hide Words, Word;
    s := start;
    ghost var exact := start;
    var len := |b|;
    ghost var odd := if len % 2 == 1 then b[len - 1] else 0;
    if len % 2 != 0 {
      s := (s + b[len - 1]) % WRAP;
      exact := exact + b[len - 1];
    }
    assert b[2 * 0..] == b;
    for x := 0 to len / 2
      invariant s == exact % WRAP
      invariant exact + Total(Words(b[2 * x..])) == start + odd + Total(Words(b))
    {
      TotalTail(b, x);
      AddWraps(s, exact, Word(b, x));
      s := (s + Word(b, x)) % WRAP;
      exact := exact + Word(b, x);
    }
    TotalTail(b, len / 2);
  }

  /** fold_ip_csum */
  function Fold(acc: nat): Half
    requires acc < WRAP
  {
    var once := acc % 0x1_0000 + acc / 0x1_0000;
    (once + once / 0x1_0000) % 0x1_0000
  }

  /** compute_ip_csum */
  function Compute(b: seq<Byte>): Half {
    0xffff - Fold(Total(Words(b)) % WRAP)
  }

  method ComputeIpCsum(b: seq<Byte>) returns (c: Half)
    ensures c == Compute(b)
  {
    var acc := Accumulate(b, 0);
    c := 0xffff - Fold(acc);
  }

  // ------------------------------------------------------------ what it computes

  ghost predicate Congruent(x: int, y: int) {
    (x - y) % 65535 == 0
  }

  /** Folding keeps the residue, and gives zero only for zero. */
  lemma FoldKeepsResidue(acc: nat)
    requires acc < WRAP
    ensures Congruent(Fold(acc), acc)
    ensures Fold(acc) == 0 <==> acc == 0
  {
  }

  lemma {:induction false} OnesSumResidue(w: seq<Half>)
    ensures Congruent(OnesSum(w), Total(w))
    ensures OnesSum(w) == 0 <==> Total(w) == 0
  {
    if w != [] {
      OnesSumResidue(w[1..]);
    }
  }

  /** Residue and zeroness determine a folded sum. */
  lemma ResidueDecides(x: Half, y: Half, t: int)
    requires Congruent(x, t) && Congruent(y, t) && (x == 0 <==> y == 0)
    ensures x == y
  {
    var q := (x - t) / 65535 - (y - t) / 65535;
    assert x - y == 65535 * q;
  }

  /** Up to 65537 words the accumulator cannot overflow, and folding once at the end is one's complement
      addition word by word. */
  lemma FoldIsOnesSum(b: seq<Byte>)
    requires |Words(b)| <= 65537
    ensures Total(Words(b)) < WRAP
    ensures Fold(Total(Words(b)) % WRAP) == OnesSum(Words(b))
    ensures Compute(b) == 0xffff - OnesSum(Words(b))
  {
    hide Words, Total, Fold, OnesSum, Congruent;
    var t := Total(Words(b));
    FoldKeepsResidue(t);
    OnesSumResidue(Words(b));
    ResidueDecides(Fold(t), OnesSum(Words(b)), t);
  }

  lemma {:induction false} AllOnes(n: nat)
    ensures Total(seq(n, _ => 0xffff as Half)) == 65535 * n
  {
    if n > 0 {
      AllOnes(n - 1);
      assert seq(n, _ => 0xffff as Half)[1..] == seq(n - 1, _ => 0xffff as Half);
    }
  }

  /** The bound is sharp: with all bits set, the accumulator holds the sum exactly up to 65537 words. */
  lemma OverflowBeyond(n: nat)
    ensures Total(seq(n, _ => 0xffff as Half)) < WRAP <==> n <= 65537
  {
    AllOnes(n);
  }

  lemma {:induction false} WordsAppend(a: seq<Byte>, b: seq<Byte>)
    requires |a| % 2 == 0
    ensures Words(a + b) == Words(a) + Words(b)
  {
    if a == [] {
      assert a + b == b;
    } else {
      hide Word;
      var ab, rest := a + b, a[2..];
      assert ab[2..] == rest + b;
      assert Word(ab, 0) == Word(a, 0) by {
        PairWord(ab, 0, [a[0], a[1]]);
        PairWord(a, 0, [a[0], a[1]]);
      }
      WordsAppend(rest, b);
      assert Words(ab) == [Word(a, 0)] + (Words(rest) + Words(b));
    }
  }

  lemma {:induction false} TotalAppend(v: seq<Half>, w: seq<Half>)
    ensures Total(v + w) == Total(v) + Total(w)
  {
    if v == [] {
      assert v + w == w;
    } else {
      TotalAppend(v[1..], w);
      assert (v + w)[1..] == v[1..] + w;
    }
  }

  /** Accumulation can be split at any even offset, overflow or not. */
  lemma SplitsAtEven(a: seq<Byte>, b: seq<Byte>, start: nat)
    requires |a| % 2 == 0 && start < WRAP
    ensures (start + Total(Words(a + b))) % WRAP == ((start + Total(Words(a))) % WRAP + Total(Words(b))) % WRAP
  {
    hide Words, Total;
    WordsAppend(a, b);
    TotalAppend(Words(a), Words(b));
    AddWraps((start + Total(Words(a))) % WRAP, start + Total(Words(a)), Total(Words(b)));
  }

  /** A buffer with a 16-bit field stored at even offset `2 * i`. */
  function Store(b: seq<Byte>, i: nat, c: Half): (r: seq<Byte>)
    requires 2 * i + 1 < |b|
    ensures |r| == |b|
  {
    b[2 * i := c % 256][2 * i + 1 := c / 256]
  }

  lemma PairWord(b: seq<Byte>, i: nat, pair: seq<Byte>)
    requires 2 * i + 1 < |b| && pair == [b[2 * i], b[2 * i + 1]]
    ensures Word(pair, 0) == Word(b, i)
  {
  }

  lemma Cut(b: seq<Byte>, k: nat)
    requires k + 1 < |b|
    ensures b == b[..k] + ([b[k], b[k + 1]] + b[k + 2..])
  {
  }

  lemma TotalCut(b: seq<Byte>, k: nat)
    requires k % 2 == 0 && k + 1 < |b|
    ensures Total(Words(b)) == Total(Words(b[..k])) + Word([b[k], b[k + 1]], 0) + Total(Words(b[k + 2..]))
  {
    hide Words, Total, Word;
    Cut(b, k);
    Spread(b[..k], [b[k], b[k + 1]], b[k + 2..]);
  }

  lemma TotalAround(b: seq<Byte>, i: nat)
    requires 2 * i + 1 < |b|
    ensures Total(Words(b)) == Total(Words(b[..2 * i])) + Word(b, i) + Total(Words(b[2 * i + 2..]))
  {
    hide Words, Total, Word;
    TotalCut(b, 2 * i);
    PairWord(b, i, [b[2 * i], b[2 * i + 1]]);
  }

  lemma {:induction false} StoreApart(b: seq<Byte>, i: nat, c: Half)
    requires 2 * i + 1 < |b|
    ensures var r := Store(b, i, c);
      Word(r, i) == c && r[..2 * i] == b[..2 * i] && r[2 * i + 2..] == b[2 * i + 2..]
  {
  }

  lemma StoredWord(b: seq<Byte>, i: nat, c: Half)
    requires 2 * i + 1 < |b|
    ensures Total(Words(Store(b, i, c))) + Word(b, i) == Total(Words(b)) + c
  {
    hide Words, Total, Word, Store;
    StoreApart(b, i, c);
    TotalAround(b, i);
    TotalAround(Store(b, i, c), i);
  }

  lemma Spread(head: seq<Byte>, pair: seq<Byte>, tail: seq<Byte>)
    requires |head| % 2 == 0 && |pair| == 2
    ensures Total(Words(head + (pair + tail))) == Total(Words(head)) + Word(pair, 0) + Total(Words(tail))
  {
    hide Word;
    WordsAppend(head, pair + tail);
    WordsAppend(pair, tail);
    TotalAppend(Words(head), Words(pair + tail));
    TotalAppend(Words(pair), Words(tail));
    assert Words(pair) == [Word(pair, 0)];
    assert Total([Word(pair, 0)]) == Word(pair, 0) + Total([]);
  }

  lemma Complements(t: nat, f: Half, g: Half)
    requires Congruent(f, t) && (f == 0 <==> t == 0)
    requires Congruent(g, t + (65535 - f)) && (g == 0 <==> t + (65535 - f) == 0)
    ensures g == 65535
  {
    var q := (f - t) / 65535;
    assert t + (65535 - f) == 65535 * (1 - q);
    var r := (g - (t + (65535 - f))) / 65535;
    assert g == 65535 * (1 - q + r);
  }

  /** A packet whose checksum was computed over a zeroed field verifies: its checksum is zero. */
  lemma StoredVerifies(b: seq<Byte>, i: nat)
    requires |Words(b)| <= 65537 && 2 * i + 1 < |b| && Word(b, i) == 0
    ensures Compute(Store(b, i, Compute(b))) == 0
  {
    hide Words, Total, Fold, Store, Congruent, OnesSum;
    var c := Compute(b);
    var b' := Store(b, i, c);
    var t, t' := Total(Words(b)), Total(Words(b'));
    StoredWord(b, i, c);
    FoldIsOnesSum(b);
    FoldIsOnesSum(b');
    FoldKeepsResidue(t);
    FoldKeepsResidue(t');
    Complements(t, Fold(t), Fold(t'));
  }

  /** The same words with their bytes exchanged, as a big-endian machine loads them. */
  function Swap(x: Half): Half {
    x / 256 + 256 * (x % 256)
  }

  function Swapped(w: seq<Half>): (r: seq<Half>)
    ensures |r| == |w|
  {
    if w == [] then [] else [Swap(w[0])] + Swapped(w[1..])
  }

  lemma CongruentSum(x: int, x': int, y: int, y': int)
    requires Congruent(x, x') && Congruent(y, y')
    ensures Congruent(x + y, x' + y')
  {
  }

  lemma {:induction false} SwappedTotal(w: seq<Half>)
    ensures Congruent(Total(Swapped(w)), 256 * Total(w))
    ensures Total(Swapped(w)) == 0 <==> Total(w) == 0
  {
    if w != [] {
      SwappedTotal(w[1..]);
      assert Swapped(w)[1..] == Swapped(w[1..]);
      var x: int := w[0];
      SwapResidue(w[0], x, 256 * x);
      assert Total(Swapped(w)) == Swap(w[0]) + Total(Swapped(w[1..]));
      CongruentSum(Swap(w[0]), 256 * x, Total(Swapped(w[1..])), 256 * Total(w[1..]));
    }
  }

  lemma SwapResidue(x: Half, t: int, u: int)
    requires Congruent(x, t) && Congruent(u, 256 * t)
    ensures Congruent(Swap(x), u) && (Swap(x) == 0 <==> x == 0)
  {
    var k, m := (x - t) / 65535, (u - 256 * t) / 65535;
    assert Swap(x) == 256 * x - 65535 * (x / 256);
    assert Swap(x) - u == 65535 * (256 * k - x / 256 - m);
  }

  /** The sum does not depend on the byte order of the machine: exchanging the bytes of every word exchanges
      the bytes of the sum. */
  lemma ByteOrderIndependent(w: seq<Half>)
    ensures OnesSum(Swapped(w)) == Swap(OnesSum(w))
  {
    hide Total, Congruent, OnesSum, Swapped, Swap;
    SwappedTotal(w);
    OnesSumResidue(w);
    OnesSumResidue(Swapped(w));
    var x := OnesSum(w);
    SwapResidue(x, Total(w), Total(Swapped(w)));
    ResidueDecides(OnesSum(Swapped(w)), Swap(x), Total(Swapped(w)));
  }
}
