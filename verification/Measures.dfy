/** Sums over lists of requests: grants held, requests of an IRP, bytes of an IRP. */
module Measures {
  import opened Elevator

  datatype Measure = Segments | CountOf(irp: nat) | BytesOf(irp: nat)

  function Weigh(r: Request, m: Measure): nat {
    match m
    case Segments => r.segments
    case CountOf(i) => if r.irp == i then 1 else 0
    case BytesOf(i) => if r.irp == i then r.bytes else 0
  }

  function Sum(q: seq<Request>, m: Measure): nat {
    if q == [] then 0 else Weigh(q[0], m) + Sum(q[1..], m)
  }

  lemma {:induction false} SumConcat(a: seq<Request>, b: seq<Request>, m: Measure)
    ensures Sum(a + b, m) == Sum(a, m) + Sum(b, m)
  {
    if a == [] {
      assert a + b == b;
    } else {
      var c, t := a + b, a[1..];
      assert c[0] == a[0] && c[1..] == t + b;
      SumConcat(t, b, m);
    }
  }

  lemma SumOne(r: Request, m: Measure)
    ensures Sum([r], m) == Weigh(r, m)
  {
    assert [r][1..] == [];
  }

  /** The list without its `k`th element. */
  function Without(q: seq<Request>, k: nat): (p: seq<Request>)
    requires k < |q|
    ensures |p| == |q| - 1
  {
    q[..k] + q[k + 1..]
  }

  lemma SumWithout(q: seq<Request>, k: nat, m: Measure)
    requires k < |q|
    ensures Sum(q, m) == Weigh(q[k], m) + Sum(Without(q, k), m)
    ensures multiset(q) == multiset(Without(q, k)) + multiset{q[k]}
  {
    var a, b := q[..k], q[k + 1..];
    assert q == a + [q[k]] + b;
    SumConcat(a + [q[k]], b, m);
    SumConcat(a, [q[k]], m);
    SumConcat(a, b, m);
    SumOne(q[k], m);
  }

  /** Sums do not depend on the order of the list. */
  lemma {:induction false} SumPermuted(a: seq<Request>, b: seq<Request>, m: Measure)
    requires multiset(a) == multiset(b)
    ensures Sum(a, m) == Sum(b, m) && |a| == |b|
    decreases |a|
  {
    assert |multiset(a)| == |a| && |multiset(b)| == |b|;
    if a != [] {
      assert a[0] in multiset(b);
      var k :| 0 <= k < |b| && b[k] == a[0];
      SumWithout(a, 0, m);
      SumWithout(b, k, m);
      assert multiset(Without(a, 0)) == multiset(a) - multiset{a[0]};
      assert multiset(Without(b, k)) == multiset(b) - multiset{a[0]};
      SumPermuted(Without(a, 0), Without(b, k), m);
    }
  }

  /** The position of a request that is on the list. */
  function IndexOf(q: seq<Request>, r: Request): (k: nat)
    requires r in q
    ensures k < |q| && q[k] == r
  {
    if q[0] == r then 0 else 1 + IndexOf(q[1..], r)
  }

  lemma {:induction false} SumZero(q: seq<Request>, i: nat)
    requires Sum(q, CountOf(i)) == 0
    ensures Sum(q, BytesOf(i)) == 0 && forall r :: r in q ==> r.irp != i
  {
    if q != [] {
      SumZero(q[1..], i);
    }
  }

  lemma {:induction false} SumPositive(q: seq<Request>, r: Request)
    requires r in q
    ensures Sum(q, CountOf(r.irp)) > 0
  {
    if q[0] != r {
      SumPositive(q[1..], r);
    }
  }
}
