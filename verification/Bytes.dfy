/** Byte buffers: copying, and runs of cells that go around the end of a circular buffer. */
module Bytes {

  /** Position `x`, brought back into a buffer of `len` cells. */
  function Wrap(x: int, len: int): int {
    if x < len then x else x - len
  }

  /** `n` cells from position `from` on, around the end of the buffer. */
  function Circular(data: seq<int>, from: int, n: int): (c: seq<int>)
    requires 0 <= from < |data| && 0 <= n <= |data|
    ensures |c| == n
  {
    seq(n, i requires 0 <= i < n => data[Wrap(from + i, |data|)])
  }

  /** Dropping from the front moves the start. */
  lemma CircularDrop(data: seq<int>, from: int, n: int, k: int)
    requires 0 <= from < |data| && 0 <= k <= n <= |data|
    ensures 0 <= Wrap(from + k, |data|) < |data|
    ensures Circular(data, from, n)[k..] == Circular(data, Wrap(from + k, |data|), n - k)
  {
    var c, d := Circular(data, from, n)[k..], Circular(data, Wrap(from + k, |data|), n - k);
    forall i | 0 <= i < n - k ensures c[i] == d[i] {
      assert Wrap(from + (k + i), |data|) == Wrap(Wrap(from + k, |data|) + i, |data|);
    }
  }

  /** Extending a run at the end by cells known to hold `more`. */
  lemma CircularExtend(data: seq<int>, from: int, n: int, more: seq<int>)
    requires 0 <= from < |data| && 0 <= n && n + |more| <= |data|
    requires forall j :: 0 <= j < |more| ==> data[Wrap(Wrap(from + n, |data|) + j, |data|)] == more[j]
    ensures Circular(data, from, n + |more|) == Circular(data, from, n) + more
  {
    var c, d := Circular(data, from, n + |more|), Circular(data, from, n) + more;
    forall i | 0 <= i < n + |more| ensures c[i] == d[i] {
      if i >= n {
        assert Wrap(Wrap(from + n, |data|) + (i - n), |data|) == Wrap(from + i, |data|);
      }
    }
  }

  /** memcpy */
  method Memcpy(dst: array<int>, at: int, src: array<int>, from: int, n: int)
    requires dst != src && 0 <= n && 0 <= at && at + n <= dst.Length && 0 <= from && from + n <= src.Length
    modifies dst
    ensures dst[..] == old(dst[..at]) + src[from..from + n] + old(dst[at + n..])
  {
    for i := 0 to n
      invariant forall k :: 0 <= k < dst.Length ==>
        dst[k] == if at <= k < at + i then src[from + k - at] else old(dst[k])
    {
      dst[at + i] := src[from + i];
    }
  }
}
