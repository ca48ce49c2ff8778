/** The two-list elevator of scsifilt/schedule.c, on sequences.

    `cur` is the sweep being served and `next` the one after it.  Both are kept
    in order of start sector.  The functions here specify the linked-list code in
    ScheduleLists.dfy and are used directly by the datapath.
  */
module Elevator {
  import opened Blkif

  /** What is fixed about a scsifilt_request once it is initialised. */
  datatype Request = Request(
    id: nat,                   // its address, echoed by the back end
    irp: nat,                  // the IRP it belongs to
    write: bool,               // the direction of the transfer
    start: int,                // first disk sector
    fragments: seq<Fragment>,  // page segments, one grant each
    bytes: nat                 // bytes transferred
  )
  {
    const segments: nat := |fragments|
  }

  datatype Schedule = Schedule(cur: seq<Request>, next: seq<Request>)
  {
    /** Everything queued, in the order in which it would be served. */
    function Queued(): seq<Request> {
      cur + next
    }
  }

  /** When the current sweep is exhausted the next one takes its place. */
  function Flip(s: Schedule): Schedule {
    if s.cur == [] then Schedule(s.next, []) else s
  }

  /** Where `k` belongs: before the first element that starts after it. */
  function Position(q: seq<Request>, k: int): (p: nat)
    ensures p <= |q|
    ensures forall i :: 0 <= i < p ==> q[i].start <= k
    ensures p < |q| ==> q[p].start > k
  {
    if q == [] || q[0].start > k then 0 else 1 + Position(q[1..], k)
  }

  function Insert(q: seq<Request>, x: Request): seq<Request> {
    var p := Position(q, x.start);
    q[..p] + [x] + q[p..]
  }

  function Enqueue(s: Schedule, x: Request): Schedule {
    var f := Flip(s);
    if f.cur == [] then
      f.(cur := [x])
    else if x.start < f.cur[0].start then
      // serving it in this sweep would be a backwards seek
      f.(next := Insert(f.next, x))
    else
      f.(cur := Insert(f.cur, x))
  }

  /** Remove the request that `get_next_request` returned. */
  function Dequeue(s: Schedule): (r: (Request, Schedule))
    requires s.Queued() != []
  {
    var f := Flip(s);
    (f.cur[0], f.(cur := f.cur[1..]))
  }

  // ------------------------------------------------------------ the elevator invariant

  ghost predicate Sorted(q: seq<Request>) {
    forall i, j :: 0 <= i < j < |q| ==> q[i].start <= q[j].start
  }

  /** Both lists are sorted and the next sweep lies strictly below the current one. */
  ghost predicate Sweeping(s: Schedule) {
    && Sorted(s.cur)
    && Sorted(s.next)
    && (s.cur != [] ==> forall y :: y in s.next ==> y.start < s.cur[0].start)
  }

  /** The service order is a rotation of one sorted list. */
  lemma ServiceOrderIsRotation(s: Schedule)
    requires Sweeping(s)
    ensures Sorted(Flip(s).next + Flip(s).cur)
    ensures Flip(s).Queued() == s.Queued()
  {
    var f := Flip(s);
    var q := f.next + f.cur;
    forall i, j | 0 <= i < j < |q| ensures q[i].start <= q[j].start {
      if i < |f.next| <= j {
        assert q[j] == f.cur[j - |f.next|] && q[i] == f.next[i];
        assert f.cur[0].start <= f.cur[j - |f.next|].start;
      }
    }
  }

  lemma InsertSorted(q: seq<Request>, x: Request)
    requires Sorted(q)
    ensures Sorted(Insert(q, x))
  {
    var p := Position(q, x.start);
    var r := Insert(q, x);
    forall j | p <= j < |q| ensures x.start < q[j].start {
      assert q[p].start <= q[j].start;
    }
    forall i, j | 0 <= i < j < |r| ensures r[i].start <= r[j].start {
      assert r[i] == if i < p then q[i] else if i == p then x else q[i - 1];
      assert r[j] == if j < p then q[j] else if j == p then x else q[j - 1];
    }
  }

  lemma InsertMembers(q: seq<Request>, x: Request)
    ensures forall y :: y in Insert(q, x) <==> y in q || y == x
    ensures q != [] && q[0].start <= x.start ==> Insert(q, x)[0] == q[0]
  {
    var p := Position(q, x.start);
    assert q == q[..p] + q[p..];
  }

  lemma EnqueueSweeps(s: Schedule, x: Request)
    requires Sweeping(s)
    ensures Sweeping(Enqueue(s, x))
  {
    var f := Flip(s);
    if f.cur == [] {
    } else if x.start < f.cur[0].start {
      InsertSorted(f.next, x);
      InsertMembers(f.next, x);
    } else {
      InsertSorted(f.cur, x);
      InsertMembers(f.cur, x);
    }
  }

  lemma InsertContents(q: seq<Request>, x: Request)
    ensures multiset(Insert(q, x)) == multiset(q) + multiset{x}
  {
    var p := Position(q, x.start);
    assert q == q[..p] + q[p..];
  }

  /** Nothing is lost or duplicated by queueing. */
  lemma EnqueueContents(s: Schedule, x: Request)
    ensures multiset(Enqueue(s, x).Queued()) == multiset(s.Queued()) + multiset{x}
  {
    var f := Flip(s);
    assert f.Queued() == s.Queued();
    if f.cur == [] {
    } else if x.start < f.cur[0].start {
      InsertContents(f.next, x);
    } else {
      InsertContents(f.cur, x);
    }
  }

  lemma EnqueueLength(s: Schedule, x: Request)
    ensures |Enqueue(s, x).Queued()| == |s.Queued()| + 1
  {
  }

  lemma DequeueHead(s: Schedule)
    requires s.Queued() != []
    ensures s.Queued() == [Dequeue(s).0] + Dequeue(s).1.Queued()
    ensures Dequeue(s).0 in s.Queued()
  {
  }

  lemma {:induction false} DequeueSweeps(s: Schedule)
    requires Sweeping(s) && s.Queued() != []
    ensures var (x, t) := Dequeue(s);
      && Sweeping(t)
      && s.Queued() == [x] + t.Queued()
      && (forall y :: y in t.cur ==> x.start <= y.start)
      && (forall y :: y in t.next ==> y.start < x.start)
  {
  }

  // ------------------------------------------------------------ arrival order

  function OneIf(x: Request, k: int): seq<Request> {
    if x.start == k then [x] else []
  }

  /** The requests of `q` that start at sector `k`, in order. */
  function StartingAt(q: seq<Request>, k: int): seq<Request> {
    if q == [] then [] else OneIf(q[0], k) + StartingAt(q[1..], k)
  }

  lemma Reassociate(x: seq<Request>, y: seq<Request>, z: seq<Request>)
    ensures x + (y + z) == (x + y) + z
  {
  }

  lemma SwapPastEmpty(x: seq<Request>, y: seq<Request>, z: seq<Request>)
    requires y == [] || z == []
    ensures x + y + z == x + z + y
  {
  }

  lemma {:induction false} StartingAtConcat(a: seq<Request>, b: seq<Request>, k: int)
    ensures StartingAt(a + b, k) == StartingAt(a, k) + StartingAt(b, k)
  {
    if a == [] {
      assert a + b == b;
    } else {
      var c, t := a + b, a[1..];
      assert c[0] == a[0] && c[1..] == t + b;
      var x, y, z := OneIf(a[0], k), StartingAt(t, k), StartingAt(b, k);
      assert StartingAt(t + b, k) == y + z by {
        StartingAtConcat(t, b, k);
      }
      Reassociate(x, y, z);
    }
  }

  lemma {:induction false} StartingAtNone(q: seq<Request>, k: int)
    requires forall i :: 0 <= i < |q| ==> q[i].start != k
    ensures StartingAt(q, k) == []
  {
    if q != [] {
      assert q[0].start != k;
      forall i | 0 <= i < |q[1..]| ensures q[1..][i].start != k {
        assert q[1..][i] == q[i + 1];
      }
      StartingAtNone(q[1..], k);
    }
  }

  lemma StartingAtOne(x: Request, k: int)
    ensures StartingAt([x], k) == OneIf(x, k)
  {
    assert [x][1..] == [];
  }

  lemma StartingAtThree(a: seq<Request>, x: Request, b: seq<Request>, k: int)
    ensures StartingAt(a + [x] + b, k) == StartingAt(a, k) + OneIf(x, k) + StartingAt(b, k)
  {
    StartingAtConcat(a + [x], b, k);
    StartingAtConcat(a, [x], k);
    StartingAtOne(x, k);
  }

  lemma InsertIsLast(q: seq<Request>, x: Request, k: int)
    requires Sorted(q)
    ensures StartingAt(Insert(q, x), k) == StartingAt(q, k) + OneIf(x, k)
  {
    var p := Position(q, x.start);
    var a, b := q[..p], q[p..];
    StartingAtThree(a, x, b, k);
    assert StartingAt(q, k) == StartingAt(a, k) + StartingAt(b, k) by {
      assert q == a + b;
      StartingAtConcat(a, b, k);
    }
    if x.start == k {
      NoneAfter(q, p, k);
    }
    SwapPastEmpty(StartingAt(a, k), OneIf(x, k), StartingAt(b, k));
  }

  lemma NoneAfter(q: seq<Request>, p: nat, k: int)
    requires Sorted(q) && p <= |q| && (p < |q| ==> q[p].start > k)
    ensures StartingAt(q[p..], k) == []
  {
    var b := q[p..];
    forall i | 0 <= i < |b| ensures b[i].start != k {
      assert b[i] == q[p + i];
      assert q[p].start <= q[p + i].start;
    }
    StartingAtNone(b, k);
  }

  /** Requests for the same sector form a queue: a new one goes last among its
      equals ... */
  lemma EnqueueIsLast(s: Schedule, x: Request, k: int)
    requires Sweeping(s)
    ensures StartingAt(Enqueue(s, x).Queued(), k) == StartingAt(s.Queued(), k) + OneIf(x, k)
  {
    var f, t := Flip(s), Enqueue(s, x);
    var c, n, o := StartingAt(f.cur, k), StartingAt(f.next, k), OneIf(x, k);
    assert StartingAt(t.Queued(), k) == StartingAt(t.cur, k) + StartingAt(t.next, k) by {
      StartingAtConcat(t.cur, t.next, k);
    }
    assert StartingAt(s.Queued(), k) == c + n by {
      assert f.Queued() == s.Queued();
      StartingAtConcat(f.cur, f.next, k);
    }
    if f.cur == [] {
      StartingAtOne(x, k);
    } else if x.start < f.cur[0].start {
      InsertIsLast(f.next, x, k);
      Reassociate(c, n, o);
    } else {
      InsertIsLast(f.cur, x, k);
      if x.start == k {
        StartingAtNone(f.next, k);
      }
      SwapPastEmpty(c, o, n);
    }
  }

  // ------------------------------------------------------------ whole runs

  datatype Op = Arrive(x: Request) | Serve

  /** What a run has seen: the schedule, the requests submitted and served so far
      (oldest first), and for each served request the number of its sweep. */
  datatype History = History(s: Schedule, submitted: seq<Request>, served: seq<Request>, sweeps: seq<nat>, sweep: nat)

  function Apply(h: History, op: Op): History {
    match op
    case Arrive(x) =>
      h.(s := Enqueue(h.s, x), submitted := h.submitted + [x], sweep := SweepAfter(h))
    case Serve =>
      if h.s.Queued() == [] then h
      else
        var (x, t) := Dequeue(h.s);
        h.(s := t, served := h.served + [x], sweeps := h.sweeps + [SweepAfter(h)], sweep := SweepAfter(h))
  }

  /** A flip starts a new sweep. */
  function SweepAfter(h: History): nat {
    if h.s.cur == [] then h.sweep + 1 else h.sweep
  }

  function Run(h: History, ops: seq<Op>): History
    decreases |ops|
  {
    if ops == [] then h else Apply(Run(h, ops[..|ops| - 1]), ops[|ops| - 1])
  }

  function Empty(): History {
    History(Schedule([], []), [], [], [], 0)
  }

  ghost predicate RunInv(h: History) {
    && Sweeping(h.s)
    && |h.sweeps| == |h.served|
    && (forall i :: 0 <= i < |h.sweeps| ==> h.sweeps[i] <= h.sweep)
    // in the sweep being served, nothing still to come lies behind what was served
    && (forall i :: 0 <= i < |h.served| && h.sweeps[i] == h.sweep ==>
          forall y :: y in h.s.cur ==> h.served[i].start <= y.start)
    && Ascending(h)
  }

  /** Within one sweep the served sectors never go backwards, and sweeps follow one another. */
  ghost predicate Ascending(h: History)
    requires |h.sweeps| == |h.served|
  {
    forall i, j :: 0 <= i < j < |h.served| ==>
      h.sweeps[i] < h.sweeps[j] || (h.sweeps[i] == h.sweeps[j] && h.served[i].start <= h.served[j].start)
  }

  lemma ApplyKeepsInv(h: History, op: Op)
    requires RunInv(h)
    ensures RunInv(Apply(h, op))
  {
    match op
    case Arrive(x) =>
      EnqueueSweeps(h.s, x);
      EnqueueBounds(h.s, x);
    case Serve =>
      if h.s.Queued() != [] {
        DequeueSweeps(h.s);
      }
  }

  /** A request joins the current sweep only ahead of its head. */
  lemma EnqueueBounds(s: Schedule, x: Request)
    requires Sweeping(s)
    ensures s.cur != [] ==> forall y :: y in Enqueue(s, x).cur ==> s.cur[0].start <= y.start
    ensures s.cur != [] ==> Enqueue(s, x).cur != []
  {
    if s.cur != [] && x.start >= s.cur[0].start {
      InsertMembers(s.cur, x);
    }
  }

  /** In every run from the empty schedule the elevator only moves forwards within a
      sweep, and for every sector the requests leave in the order they arrived. */
  lemma {:induction false} EveryRun(ops: seq<Op>)
    ensures var h := Run(Empty(), ops);
      && RunInv(h)
      && Ascending(h)
      && forall k :: StartingAt(h.served, k) + StartingAt(h.s.Queued(), k) == StartingAt(h.submitted, k)
    decreases |ops|
  {
    if ops != [] {
      var g := Run(Empty(), ops[..|ops| - 1]);
      var op := ops[|ops| - 1];
      EveryRun(ops[..|ops| - 1]);
      ApplyKeepsInv(g, op);
      forall k ensures var h := Apply(g, op);
          StartingAt(h.served, k) + StartingAt(h.s.Queued(), k) == StartingAt(h.submitted, k) {
        ArrivalOrderStep(g, op, k);
      }
    }
  }

  lemma {:induction false} ArrivalOrderStep(g: History, op: Op, k: int)
    requires Sweeping(g.s)
    requires StartingAt(g.served, k) + StartingAt(g.s.Queued(), k) == StartingAt(g.submitted, k)
    ensures var h := Apply(g, op);
      StartingAt(h.served, k) + StartingAt(h.s.Queued(), k) == StartingAt(h.submitted, k)
  {
    var done, queued, all := StartingAt(g.served, k), StartingAt(g.s.Queued(), k), StartingAt(g.submitted, k);
    if op.Arrive? {
      var x := op.x;
      assert StartingAt(Enqueue(g.s, x).Queued(), k) == queued + OneIf(x, k) by {
        EnqueueIsLast(g.s, x, k);
      }
      assert StartingAt(g.submitted + [x], k) == all + OneIf(x, k) by {
        StartingAtConcat(g.submitted, [x], k);
        StartingAtOne(x, k);
      }
      Reassociate(done, queued, OneIf(x, k));
    } else if g.s.Queued() != [] {
      var (x, t) := Dequeue(g.s);
      assert StartingAt(g.served + [x], k) == done + OneIf(x, k) by {
        StartingAtConcat(g.served, [x], k);
        StartingAtOne(x, k);
      }
      assert queued == OneIf(x, k) + StartingAt(t.Queued(), k) by {
        DequeueSweeps(g.s);
        StartingAtConcat([x], t.Queued(), k);
        StartingAtOne(x, k);
      }
      Reassociate(done, OneIf(x, k), StartingAt(t.Queued(), k));
    }
  }
}
