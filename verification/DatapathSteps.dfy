/** Each step of the datapath keeps the invariants of DatapathSafety. */
module DatapathSteps {
  import opened Blkif
  import opened RingIndex
  import opened SharedRing
  import opened Elevator
  import opened Measures
  import opened Datapath
  import opened DatapathSafety

  // ============================================================ submission

  ghost predicate Strangers(q: seq<Request>, m: multiset<Request>) {
    && (forall r, x :: r in q && x in m ==> x.id != r.id)
    && (forall i, j :: 0 <= i < j < |q| ==> q[i].id != q[j].id)
  }

  lemma StrangersRest(q: seq<Request>, m: multiset<Request>)
    requires q != [] && Strangers(q, m)
    ensures Strangers(q[1..], m + multiset{q[0]})
  {
    var t := q[1..];
    forall i, j | 0 <= i < j < |t| ensures t[i].id != t[j].id {
      assert q[i + 1].id != q[j + 1].id;
    }
    forall s, x | s in t && x in m + multiset{q[0]} ensures x.id != s.id {
      var j :| 0 <= j < |t| && t[j] == s;
      assert q[j + 1] == s && q[j + 1].id != q[0].id;
    }
  }

  lemma {:induction false} EnqueueAllKeeps(d: Dev, q: seq<Request>)
    requires Core(d) && Strangers(q, multiset(d.All())) && Bounded(q)
    ensures Core(EnqueueAll(d, q))
    ensures multiset(EnqueueAll(d, q).All()) == multiset(d.All()) + multiset(q)
    decreases |q|
  {
    hide Core, Dev.All;
    if q != [] {
      var m := multiset(d.All());
      StrangersRest(q, m);
      EnqueueOneKeeps(d, q[0]);
      EnqueueAllKeeps(EnqueueOne(d, q[0]), q[1..]);
      assert multiset(q) == multiset{q[0]} + multiset(q[1..]) by {
        assert q == [q[0]] + q[1..];
      }
    }
  }

  lemma {:induction false} SumOfOneIrp(q: seq<Request>, irp: nat)
    requires forall r :: r in q ==> r.irp == irp
    ensures Sum(q, CountOf(irp)) == |q|
    ensures forall i: nat :: i != irp ==> Sum(q, CountOf(i)) == 0 && Sum(q, BytesOf(i)) == 0
  {
    if q != [] {
      SumOfOneIrp(q[1..], irp);
    }
  }

  lemma {:induction false} SumOfNone(q: seq<Request>, irp: nat)
    requires forall r :: r in q ==> r.irp != irp
    ensures Sum(q, CountOf(irp)) == 0 && Sum(q, BytesOf(irp)) == 0
  {
    if q != [] {
      SumOfNone(q[1..], irp);
    }
  }

  lemma {:induction false} NothingDone(f: seq<Finish>, irp: nat)
    requires forall x :: x in f ==> x.req.irp != irp
    ensures BytesDone(f, irp) == 0 && AllOkay(f, irp)
    decreases |f|
  {
    if f != [] {
      NothingDone(f[..|f| - 1], irp);
    }
  }

  /** The IRPs after `q` has been accepted for the new IRP `irp`. */
  lemma IrpBooksAccept(a: seq<Request>, irps: map<nat, Irp>, f: seq<Finish>, outstanding: int, irp: nat, size: Extent,
                       q: seq<Request>)
    requires IrpBooks(a, irps, f, outstanding)
    requires irp !in irps && q != [] && (forall r :: r in q ==> r.irp == irp) && Sum(q, BytesOf(irp)) == size.Bytes()
    ensures IrpBooks(a + q, irps[irp := NewIrp(size, q)], f, outstanding + |q|)
  {
    var irps' := irps[irp := NewIrp(size, q)];
    SumOfOneIrp(q, irp);
    forall i | i in irps'
      ensures IrpRight(irps'[i], i, Sum(a + q, CountOf(i)), Sum(a + q, BytesOf(i)), f)
    {
      SumConcat(a, q, CountOf(i));
      SumConcat(a, q, BytesOf(i));
      if i == irp {
        SumOfNone(a, i);
        NothingDone(f, i);
      }
    }
  }

  lemma NewcomersAreStrangers(d: Dev, irp: nat, size: Extent, q: seq<Request>)
    requires Places(d) && NewRequests(d, irp, size, q)
    ensures Strangers(q, multiset(d.All()))
  {
    FourLists(d.sched.Queued(), d.inflight, d.replay, d.done);
  }

  lemma CoreOf(d: Dev)
    requires Inv(d)
    ensures Core(d)
  {
    hide Places, OnRing, Granted;
  }

  // ------------------------------------------------------------ initialised requests

  lemma {:induction false} MarkedElsewhere(state: States, q: seq<Request>, l: seq<Request>, s: SfrState)
    requires StateOf(state, l, s) && forall r, x :: r in q && x in l ==> x.id != r.id
    ensures StateOf(MarkInitialised(state, q), l, s)
    decreases |q|
  {
    if q != [] {
      MarkedElsewhere(state[q[0].id := Initialised], q[1..], l, s);
    }
  }

  lemma {:induction false} MarkedStays(state: States, q: seq<Request>, id: nat)
    requires id in state && state[id] == Initialised
    ensures id in MarkInitialised(state, q) && MarkInitialised(state, q)[id] == Initialised
    decreases |q|
  {
    if q != [] {
      MarkedStays(state[q[0].id := Initialised], q[1..], id);
    }
  }

  lemma {:induction false} Marked(state: States, q: seq<Request>)
    ensures StateOf(MarkInitialised(state, q), q, Initialised)
    decreases |q|
  {
    if q != [] {
      var t := state[q[0].id := Initialised];
      Marked(t, q[1..]);
      MarkedStays(t, q[1..], q[0].id);
    }
  }

  lemma MarkedLists(q: seq<Request>, i: seq<Request>, p: seq<Request>, n: seq<Request>, state: States,
                    new': seq<Request>)
    requires Lists(q, i, p, n, state) && Strangers(new', multiset(q + i + p + n))
    ensures Lists(q, i, p, n, MarkInitialised(state, new'))
  {
    FourLists(q, i, p, n);
    hide Unique;
    MarkedElsewhere(state, new', q, Queued);
    MarkedElsewhere(state, new', i, Submitted);
    MarkedElsewhere(state, new', p, Submitted);
    MarkedElsewhere(state, new', n, Processed);
  }

  lemma AcceptCore(d: Dev, irp: nat, size: Extent, q: seq<Request>)
    requires Core(d) && Strangers(q, multiset(d.All()))
    ensures Core(Accept(d, irp, size, q)) && Accept(d, irp, size, q).All() == d.All()
    ensures Published(d) ==> Published(Accept(d, irp, size, q))
  {
    hide Served, Sweeping, Bounded, Answered, Sum, Lists, MarkInitialised;
    MarkedLists(d.sched.Queued(), d.inflight, d.replay, d.done, d.state, q);
  }

  lemma RingOf(d: Dev)
    requires Inv(d)
    ensures (d.ringPresent ==> RingReady(d)) && Controlled(d)
  {
    hide Places, Granted, IrpsRight, Conserved, Served, RingReady;
  }

  lemma AcceptControlled(d: Dev, irp: nat, size: Extent, q: seq<Request>)
    requires Controlled(d)
    ensures Controlled(Accept(d, irp, size, q))
  {
    hide NewIrp, MarkInitialised;
  }

  lemma {:induction false} EnqueueAssertsHold(d: Dev, q: seq<Request>)
    requires StateOf(d.state, q, Initialised) && forall i, j :: 0 <= i < j < |q| ==> q[i].id != q[j].id
    ensures EnqueueAsserts(d, q)
    decreases |q|
  {
    if q != [] {
      var e, t := EnqueueOne(d, q[0]), q[1..];
      assert q[0] in q;
      forall r | r in t ensures r in q && r.id != q[0].id {
        var j :| 0 <= j < |t| && t[j] == r;
        assert q[j + 1] == r;
      }
      forall i, j | 0 <= i < j < |t| ensures t[i].id != t[j].id {
        assert q[i + 1].id != q[j + 1].id;
      }
      EnqueueAssertsHold(e, t);
    }
  }

  /** The first half of the submission: everything queued, nothing started. */
  lemma {:induction false} AcceptKeeps(d: Dev, irp: nat, size: Extent, q: seq<Request>)
    requires Inv(d) && irp !in d.irps && NewRequests(d, irp, size, q)
    ensures EnqueueAsserts(Accept(d, irp, size, q), q)
    ensures var e := EnqueueAll(Accept(d, irp, size, q), q);
      Core(e) && Published(e) && Controlled(e) && Conserved(e) && IrpsRight(e)
  {
    var d1 := Accept(d, irp, size, q);
    hide Core, Places, OnRing, EnqueueAll, EnqueueAsserts, Dev.All, IrpBooks, MarkInitialised, NewIrp;
    assert Core(d) by { CoreOf(d); }
    NewcomersAreStrangers(d, irp, size, q);
    AcceptCore(d, irp, size, q);
    Marked(d.state, q);
    EnqueueAssertsHold(d1, q);
    EnqueueAllKeeps(d1, q);
    var e := EnqueueAll(d1, q);
    IrpBooksAccept(d.All(), d.irps, d.finished, d.curOutstanding, irp, size, q);
    IrpBooksPermuted(d.All() + q, e.All(), e.irps, e.finished, e.curOutstanding);
  }

  lemma SubmitKeeps(d: Dev, irp: nat, size: Extent, q: seq<Request>, extra: nat)
    requires Inv(d) && Enabled(d, ASubmit(irp, size, q, extra))
    ensures Inv(Submit(d, irp, size, q, extra))
  {
    hide Places, Served, RingReady, Granted, Published, Controlled, Conserved, IrpsRight, StartRequests, EnqueueAll,
      Moving, SameBooks, NewRequests,
      Accept, EnqueueAsserts;
    AcceptKeeps(d, irp, size, q);
    var e := EnqueueAll(Accept(d, irp, size, q), q);
    StartRequestsKeeps(e, extra);
    BooksKept(e, StartRequests(e, extra));
  }

  lemma SubmitAsserts(d: Dev, irp: nat, size: Extent, q: seq<Request>, extra: nat)
    requires Inv(d) && Enabled(d, ASubmit(irp, size, q, extra))
    ensures Asserts(d, ASubmit(irp, size, q, extra))
  {
    hide Places, Served, RingReady, Granted, Published, Controlled, Conserved, IrpsRight, StartRequestsAsserts,
      Moving, NewRequests,
      EnqueueAsserts;
    AcceptKeeps(d, irp, size, q);
    var e := EnqueueAll(Accept(d, irp, size, q), q);
    StartRequestsAssertsHold(e, extra);
  }

  // ------------------------------------------------------------ starting finds requests queued

  lemma {:induction false} HeadQueued(d: Dev)
    requires Core(d) && Flip(d.sched).cur != []
    ensures InState(d, Flip(d.sched).cur[0], Queued)
  {
    assert Flip(d.sched).cur[0] in d.sched.Queued();
    hide Sweeping, Bounded, Unique, OnRing, Granted;
  }

  lemma {:induction false} StartAssertsHold(d: Dev, extra: nat)
    requires Core(d) && d.live
    ensures RingReady(d) && StartAsserts(d, extra)
    decreases |d.sched.Queued()|
  {
    hide Places, Served, Granted, SameBooks, StartOne, CanGrant, RingSize;
    if !d.ring.Full() {
      var f := d.(sched := Flip(d.sched));
      if f.sched.cur != [] {
        HeadQueued(d);
        StartTurn(d);
        if CanGrant(f, f.sched.cur[0], extra) {
          StartAssertsHold(StartOne(f), extra);
        }
      }
    }
  }

  lemma {:induction false} StartRequestsAssertsHold(d: Dev, extra: nat)
    requires Core(d) && Controlled(d)
    ensures (d.ringPresent ==> RingReady(d)) && StartRequestsAsserts(d, extra)
  {
    hide Places, Served, Granted, StartAsserts, RingSize;
    if d.pauseCount == 0 {
      StartAssertsHold(d, extra);
    }
  }

  // ============================================================ the completion DPC

  lemma {:induction false} SfrsAppend(q: seq<Response>, p: Response)
    ensures Sfrs(q + [p]) == Sfrs(q) + multiset{p.sfr}
  {
    if q == [] {
      assert q + [p] == [p] && [p][1..] == [];
    } else {
      assert (q + [p])[1..] == q[1..] + [p];
      SfrsAppend(q[1..], p);
    }
  }

  /** The request of a response that may be taken. */
  ghost predicate Retirable(d: Dev) {
    && RingReady(d) && TakeResponse(d.ring).0.Rsp?
    && TakeResponse(d.ring).0.rsp.sfr in d.inflight && InState(d, TakeResponse(d.ring).0.rsp.sfr, Submitted)
  }

  /** What the DPC finds when it takes a response. */
  lemma ResponseIsInflight(d: Dev)
    requires Core(d) && d.dpc.Polling? && d.ring.rspCons != d.dpc.prod
    ensures Retirable(d) && d.ring.rspCons != d.ring.rspProd
  {
    TakeResponseRemoves(d.ring);
    var r := d.ring.Responses()[0].sfr;
    assert r in Sfrs(d.ring.Responses());
    assert r in multiset(d.inflight);
  }

  lemma TakeAsserts(d: Dev, extra: nat)
    requires Core(d) && d.dpc.Polling? && d.ring.rspCons != d.dpc.prod
    ensures Asserts(d, ADpcTake(extra)) && Retirable(d)
  {
    hide Places, OnRing, Granted, SameBooks;
    ResponseIsInflight(d);
    RetirePlaces(d);
    RetireRing(d);
    hide Retire;
    var e := Retire(d);
    if Flip(e.sched).cur != [] {
      HeadQueued(e);
    }
  }

  /** Moving a request in flight to the completed list. */
  lemma MoveToDone(k: nat, q: seq<Request>, i: seq<Request>, p: seq<Request>, n: seq<Request>, state: States)
    requires Lists(q, i, p, n, state) && k < |i|
    ensures Lists(q, Without(i, k), p, n + [i[k]], state[i[k].id := Processed])
    ensures multiset(q + Without(i, k) + p + (n + [i[k]])) == multiset(q + i + p + n)
  {
    var x, i' := i[k], Without(i, k);
    SumWithout(i, k, Segments);
    FourLists(q, i, p, n);
    FourLists(q, i', p, n + [x]);
    OnlyHere(multiset(q + i + p + n), x, multiset(q) + multiset(i') + multiset(p) + multiset(n));
    Rearranged(q, i, p, n, q, i', p, n + [x], state, x, Processed);
  }

  lemma RetirePlaces(d: Dev)
    requires Places(d) && Retirable(d)
    ensures Places(Retire(d)) && SameBooks(d, Retire(d))
  {
    var r := TakeResponse(d.ring).0.rsp.sfr;
    MoveToDone(IndexOf(d.inflight, r), d.sched.Queued(), d.inflight, d.replay, d.done, d.state);
    BoundedSame(d.All(), Retire(d).All());
  }

  lemma ServedRetire(ring: Ring<Request, Response>, held: multiset<Request>, inflight: seq<Request>, k: nat)
    requires Served(ring, held, inflight) && ring.rspCons != ring.rspProd
    requires k < |inflight| && TakeResponse(ring).0 == Rsp(ring.Responses()[0])
    requires inflight[k] == ring.Responses()[0].sfr
    ensures Served(TakeResponse(ring).1, held, Without(inflight, k)) && !TakeResponse(ring).1.Full()
  {
    TakeResponseRemoves(ring);
    SumWithout(inflight, k, Segments);
    var i', x := Without(inflight, k), inflight[k];
    assert multiset(i') == multiset(inflight) - multiset{x};
  }

  lemma RetireRing(d: Dev)
    requires Core(d) && d.dpc.Polling? && d.ring.rspCons != d.dpc.prod && Retirable(d)
    ensures OnRing(Retire(d)) && Granted(Retire(d)) && !Retire(d).ring.Full()
  {
    hide Places, Unique, Sum;
    ResponseIsInflight(d);
    TakeResponseRemoves(d.ring);
    var k := IndexOf(d.inflight, TakeResponse(d.ring).0.rsp.sfr);
    ServedRetire(d.ring, d.held, d.inflight, k);
    SumWithout(d.inflight, k, Segments);
  }

  lemma {:induction false} StartNextKeeps(d: Dev, extra: nat)
    requires Core(d) && Published(d) && d.live && !d.ring.Full()
    ensures var e := StartNext(d, extra);
      && Core(e) && Published(e) && SameBooks(d, e) && OnlyStarted(d, e)
      && (d.replay == [] ==> Busy(e))
  {
    hide Places, Served, Granted, SameBooks;
    FlipKeeps(d);
    var f := d.(sched := Flip(d.sched));
    if f.sched.cur == [] || !CanGrant(f, f.sched.cur[0], extra) {
      if d.replay == [] {
        ExhaustedMoves(f, extra);
      }
    } else {
      StartTurn(d);
      PushKeeps(StartOne(f));
      SameBooksTransitive(d, StartOne(f), Push(StartOne(f)));
    }
  }

  lemma DpcTakeKeeps(d: Dev, extra: nat)
    requires Inv(d) && Enabled(d, ADpcTake(extra)) && Asserts(d, ADpcTake(extra))
    ensures Inv(DpcTake(d, extra))
  {
    ResponseIsInflight(d);
    RetirePlaces(d);
    RetireRing(d);
    var e := Retire(d);
    StartNextKeeps(e, extra);
    BooksKept(d, StartNext(e, extra));
  }

  // ============================================================ finishing requests

  /** Taking a finished request off the books. */
  lemma RemoveDone(k: nat, q: seq<Request>, i: seq<Request>, p: seq<Request>, n: seq<Request>, state: States)
    requires Lists(q, i, p, n, state) && k < |n|
    ensures Lists(q, i, p, Without(n, k), state - {n[k].id})
    ensures multiset(q + i + p + n) == multiset(q + i + p + Without(n, k)) + multiset{n[k]}
    ensures forall r :: r in Without(n, k) ==> r.id != n[k].id
  {
    var x, n' := n[k], Without(n, k);
    var m, m' := multiset(q + i + p + n), multiset(q + i + p + n');
    SumWithout(n, k, Segments);
    FourLists(q, i, p, n);
    FourLists(q, i, p, n');
    assert m == multiset{x} + m';
    OnlyHere(m, x, m');
    UniqueLess(m, m', x);
    hide Unique;
    StateLess(m', state, q, x, Queued);
    StateLess(m', state, i, x, Submitted);
    StateLess(m', state, p, x, Submitted);
    forall r | r in n' ensures r in n {
      assert r in multiset(n);
    }
    StateLess(m', state, n', x, Processed);
  }

  lemma UniqueLess(m: multiset<Request>, m': multiset<Request>, x: Request)
    requires Unique(m) && m == multiset{x} + m'
    ensures Unique(m') && forall r :: r in m' ==> r.id != x.id
  {
    OnlyHere(m, x, m');
    forall r | r in m' ensures m'[r] == 1 && r.id != x.id {
      assert r in m && m[r] == m'[r] + multiset{x}[r];
    }
  }

  lemma StateLess(m: multiset<Request>, state: States, q: seq<Request>, x: Request, s: SfrState)
    requires StateOf(state, q, s) && (forall r :: r in q ==> r in m) && (forall r :: r in m ==> r.id != x.id)
    ensures StateOf(state - {x.id}, q, s)
  {
  }

  lemma FinishPlaces(d: Dev, k: nat)
    requires Places(d) && Asserts(d, AFinish(k))
    ensures Places(FinishOne(d, k)) && multiset(d.All()) == multiset(FinishOne(d, k).All()) + multiset{d.done[k]}
  {
    hide Lists, Sweeping, CompleteInIrp;
    var e := FinishOne(d, k);
    RemoveDone(k, d.sched.Queued(), d.inflight, d.replay, d.done, d.state);
    forall r | r in e.All() ensures 1 <= r.segments <= MAX_SEGMENTS {
      assert r in multiset(e.All());
      assert r in multiset(d.All());
    }
    forall r | r in e.done ensures r.id in e.result {
      assert r in d.done;
    }
  }

  lemma BytesDoneAppend(f: seq<Finish>, x: Finish, irp: nat)
    ensures BytesDone(f + [x], irp) == BytesDone(f, irp) + Weigh(x.req, BytesOf(irp))
    ensures AllOkay(f + [x], irp) <==> AllOkay(f, irp) && (x.req.irp == irp ==> x.result == OKAY)
    ensures Retired(f + [x]) == Retired(f) + multiset{x.req}
  {
    var g := f + [x];
    assert g[..|g| - 1] == f;
    assert forall k :: 0 <= k < |f| ==> g[k] == f[k];
    assert g[|f|] == x;
  }

  /** complete_this_request on an IRP: the last request completes it, and not before. */
  lemma CompleteRight(i: Irp, irp: nat, active: nat, bytes: nat, f: seq<Finish>, x: Finish)
    requires x.req.irp == irp && active > 0 && bytes >= x.req.bytes
    requires IrpRight(i, irp, active, bytes, f)
    ensures IrpRight(CompleteInIrp(i, x.req.bytes, x.result), irp, active - 1, bytes - x.req.bytes, f + [x])
  {
    BytesDoneAppend(f, x, irp);
    hide AllOkay, BytesDone;
  }

  lemma OtherIrpRight(i: Irp, irp: nat, active: nat, bytes: nat, f: seq<Finish>, x: Finish)
    requires x.req.irp != irp && IrpRight(i, irp, active, bytes, f)
    ensures IrpRight(i, irp, active, bytes, f + [x])
  {
    BytesDoneAppend(f, x, irp);
    hide AllOkay, BytesDone;
  }

  /** The IRPs after one of the requests `[r] + b` has been finished. */
  lemma IrpBooksFinish(b: seq<Request>, irps: map<nat, Irp>, f: seq<Finish>, outstanding: int, x: Finish)
    requires IrpBooks([x.req] + b, irps, f, outstanding) && x.req.irp in irps
    ensures IrpBooks(b, irps[x.req.irp := CompleteInIrp(irps[x.req.irp], x.req.bytes, x.result)],
                     f + [x], outstanding - 1)
  {
    var r := x.req;
    var a := [r] + b;
    var irps' := irps[r.irp := CompleteInIrp(irps[r.irp], r.bytes, x.result)];
    forall i | i in irps' ensures IrpRight(irps'[i], i, Sum(b, CountOf(i)), Sum(b, BytesOf(i)), f + [x]) {
      SumConcat([r], b, CountOf(i));
      SumConcat([r], b, BytesOf(i));
      SumOne(r, CountOf(i));
      SumOne(r, BytesOf(i));
      hide IrpRight, CompleteInIrp, Sum;
      if i == r.irp {
        CompleteRight(irps[i], i, Sum(a, CountOf(i)), Sum(a, BytesOf(i)), f, x);
      } else {
        OtherIrpRight(irps[i], i, Sum(a, CountOf(i)), Sum(a, BytesOf(i)), f, x);
      }
    }
    forall q | q in b ensures q.irp in irps' {
      assert q in a;
    }
  }

  /** A request handed to finish_requests is processed and its IRP is still pending. */
  lemma DoneIsPending(d: Dev, k: nat)
    requires Inv(d) && k < |d.done|
    ensures Asserts(d, AFinish(k))
  {
    var r := d.done[k];
    assert r in d.done && r in d.All();
    SumPositive(d.All(), r);
  }

  lemma FinishBooks(d: Dev, k: nat)
    requires Conserved(d) && IrpsRight(d) && Asserts(d, AFinish(k))
    requires multiset(d.All()) == multiset(FinishOne(d, k).All()) + multiset{d.done[k]}
    ensures Conserved(FinishOne(d, k)) && IrpsRight(FinishOne(d, k))
  {
    hide IrpBooks, Dev.All, Retired, CompleteInIrp;
    var e := FinishOne(d, k);
    var x := Finish(d.done[k], d.result[d.done[k].id]);
    BytesDoneAppend(d.finished, x, 0);
    IrpBooksPermuted(d.All(), [x.req] + e.All(), d.irps, d.finished, d.curOutstanding);
    IrpBooksFinish(e.All(), d.irps, d.finished, d.curOutstanding, x);
  }

  lemma FinishKeeps(d: Dev, k: nat)
    requires Inv(d) && Enabled(d, AFinish(k)) && Asserts(d, AFinish(k))
    ensures Inv(Do(d, AFinish(k)))
  {
    hide Places, Conserved, IrpsRight, Served, Sum, Dev.All, CompleteInIrp;
    FinishPlaces(d, k);
    FinishBooks(d, k);
  }

  // ============================================================ the back end

  /** A back-end step changes the ring and what the back end holds, and moves no front-end index. */
  lemma BackEndKeeps(d: Dev, ring': Ring<Request, Response>, held': multiset<Request>)
    requires Inv(d) && d.live && Served(ring', held', d.inflight)
    requires ring'.rspCons == d.ring.rspCons && ring'.reqPvt == d.ring.reqPvt && ring'.reqProd == d.ring.reqProd
    requires Diff(ring'.rspProd, ring'.rspCons) >= Diff(d.ring.rspProd, d.ring.rspCons)
    ensures Inv(d.(ring := ring', held := held'))
  {
    hide Places, IrpsRight, Conserved, Served, RingReady, Granted, Sum, Dev.All;
    var e := d.(ring := ring', held := held');
    assert RingReady(e) by { ServedReady(e); }
    assert Granted(e) by { GrantedFrame(d, e); }
    assert SameBooks(d, e) by { SameBooksFrame(d, e); }
    assert Places(e) by { PlacesFrame(d, e); }
    BooksKept(d, e);
  }

  lemma ServedReady(d: Dev)
    requires Served(d.ring, d.held, d.inflight)
    ensures RingReady(d)
  {
  }

  lemma GrantedFrame(d: Dev, e: Dev)
    requires Granted(d) && e.grants == d.grants && e.ringGrants == d.ringGrants && e.maxRingPages == d.maxRingPages
    requires e.inflight == d.inflight && e.replay == d.replay
    ensures Granted(e)
  {
  }

  lemma ConsumeKeeps(d: Dev)
    requires Inv(d) && Enabled(d, AConsume)
    ensures Asserts(d, AConsume) && Inv(Do(d, AConsume))
  {
    hide Places, IrpsRight, Granted, Conserved;
    TakeRequestRemoves(d.ring);
    ServedConsume(d.ring, d.held, d.inflight);
    BackEndKeeps(d, TakeRequest(d.ring).1, d.held + multiset{TakeRequest(d.ring).0.req});
  }

  lemma ServedConsume(ring: Ring<Request, Response>, held: multiset<Request>, inflight: seq<Request>)
    requires Served(ring, held, inflight) && ring.reqCons != ring.reqProd && TakeRequest(ring).0.Req?
    ensures Served(TakeRequest(ring).1, held + multiset{TakeRequest(ring).0.req}, inflight)
  {
    TakeRequestRemoves(ring);
    var q := ring.Requests();
    assert q == [q[0]] + q[1..];
    assert multiset(q) == multiset{q[0]} + multiset(q[1..]);
  }

  lemma AnswerKeeps(d: Dev, r: Request, status: int)
    requires Inv(d) && Enabled(d, AAnswer(r, status))
    ensures Asserts(d, AAnswer(r, status)) && Inv(Do(d, AAnswer(r, status)))
  {
    hide Places, IrpsRight, Granted, Conserved;
    ServedAnswer(d.ring, d.held, d.inflight, Response(r, status));
    BackEndKeeps(d, PutResponse(d.ring, Response(r, status)), d.held - multiset{r});
  }

  lemma ServedAnswer(ring: Ring<Request, Response>, held: multiset<Request>, inflight: seq<Request>, p: Response)
    requires Served(ring, held, inflight) && p.sfr in held
    ensures Served(PutResponse(ring, p), held - multiset{p.sfr}, inflight)
  {
    var held' := held - multiset{p.sfr};
    assert held == held' + multiset{p.sfr};
    PutResponseAppends(ring, p);
    SfrsAppend(ring.Responses(), p);
  }

  lemma PublishKeeps(d: Dev)
    requires Inv(d) && Enabled(d, APublish)
    ensures Inv(d.(ring := PushResponses(d.ring)))
  {
    hide Places, IrpsRight, Granted, Conserved;
    PushResponsesPublishes(d.ring);
    BackEndKeeps(d, PushResponses(d.ring), d.held);
  }

  // ============================================================ suspend, connect and replay

  /** Everything in flight joins the requests that wait for replay. */
  lemma RescueLists(q: seq<Request>, i: seq<Request>, p: seq<Request>, n: seq<Request>, state: States)
    requires Lists(q, i, p, n, state)
    ensures Lists(q, [], p + i, n, state)
    ensures multiset(q + [] + (p + i) + n) == multiset(q + i + p + n)
  {
    hide Unique;
    FourLists(q, i, p, n);
    FourLists(q, [], p + i, n);
    assert multiset(q + [] + (p + i) + n) == multiset(q + i + p + n);
    assert forall r :: r in p + i ==> r in p || r in i;
  }

  lemma RescuePlaces(d: Dev, suspend: bool)
    requires Places(d)
    ensures Places(Rescue(d, suspend)) && SameBooks(d, Rescue(d, suspend))
  {
    hide Lists, Sweeping, Bounded, Schedule.Queued;
    RescueLists(d.sched.Queued(), d.inflight, d.replay, d.done, d.state);
    BoundedSame(d.All(), Rescue(d, suspend).All());
  }

  lemma RescueKeeps(d: Dev, suspend: bool)
    requires Inv(d) && d.dpc.Idle?
    ensures Inv(Rescue(d, suspend))
  {
    hide IrpsRight, Conserved, Places, Served, SameBooks;
    RescuePlaces(d, suspend);
    SumConcat(d.replay, d.inflight, Segments);
    BooksKept(d, Rescue(d, suspend));
  }

  /** Moving the first request that waits for replay back into the schedule. */
  lemma MoveToQueue(q: seq<Request>, q': seq<Request>, i: seq<Request>, p: seq<Request>, n: seq<Request>, state: States)
    requires p != [] && Lists(q, i, p, n, state) && multiset(q') == multiset(q) + multiset{p[0]}
    ensures Lists(q', i, p[1..], n, state[p[0].id := Queued])
    ensures multiset(q' + i + p[1..] + n) == multiset(q + i + p + n)
  {
    var x, t := p[0], p[1..];
    assert p == [x] + t;
    FourLists(q, i, p, n);
    FourLists(q', i, t, n);
    OnlyHere(multiset(q + i + p + n), x, multiset(q) + multiset(i) + multiset(t) + multiset(n));
    forall r | r in q' && r != x ensures r in q {
      assert r in multiset(q');
    }
    Rearranged(q, i, p, n, q', i, t, n, state, x, Queued);
  }

  lemma ReplayOnePlaces(d: Dev)
    requires Places(d) && d.replay != []
    ensures Places(ReplayOne(d)) && SameBooks(d, ReplayOne(d))
  {
    hide Lists, Sweeping, Bounded, Enqueue, Answered, Schedule.Queued;
    var e, r := ReplayOne(d), d.replay[0];
    EnqueueSweeps(d.sched, r);
    EnqueueContents(d.sched, r);
    EnqueueLength(d.sched, r);
    MoveToQueue(d.sched.Queued(), e.sched.Queued(), d.inflight, d.replay, d.done, d.state);
    SetTwice(d.state, r.id, Initialised, Queued);
    BoundedSame(d.All(), e.All());
  }

  lemma SetTwice(state: States, id: nat, s: SfrState, t: SfrState)
    ensures state[id := s][id := t] == state[id := t]
  {
  }

  lemma ReplayOneKeeps(d: Dev)
    requires Core(d) && d.replay != []
    ensures Core(ReplayOne(d)) && SameBooks(d, ReplayOne(d))
  {
    hide Places, Served, Enqueue, SameBooks;
    ReplayOnePlaces(d);
    var r := d.replay[0];
    assert d.replay == [r] + d.replay[1..];
  }

  lemma {:induction false} ReplayAllKeeps(d: Dev)
    requires Core(d)
    ensures Core(ReplayAll(d)) && SameBooks(d, ReplayAll(d))
    decreases |d.replay|
  {
    hide Core, SameBooks;
    if d.replay != [] {
      ReplayOneKeeps(d);
      ReplayAllKeeps(ReplayOne(d));
      SameBooksTransitive(d, ReplayOne(d), ReplayAll(d));
    } else {
      SameBooksReflexive(d);
    }
  }

  lemma ReplayCounts(d: Dev)
    requires Core(d)
    ensures d.nrReplay == |d.replay| && (d.replay != [] ==> InState(d, d.replay[0], Submitted))
  {
    hide Sweeping, Bounded, Unique, OnRing, Granted, Answered;
  }

  lemma {:induction false} ReplayAssertsHold(d: Dev)
    requires Core(d)
    ensures ReplayAsserts(d)
    decreases |d.replay|
  {
    hide Core;
    ReplayCounts(d);
    if d.replay != [] {
      ReplayOneKeeps(d);
      ReplayAssertsHold(ReplayOne(d));
    }
  }

  lemma {:induction false} AbortAssertsHold(d: Dev)
    requires Core(d)
    ensures AbortAsserts(d)
    decreases |d.replay|
  {
    hide Core;
    ReplayCounts(d);
    if d.replay != [] {
      AbortOneKeeps(d);
      AbortAssertsHold(AbortOne(d));
    }
  }

  lemma SameBooksReflexive(d: Dev)
    ensures SameBooks(d, d)
  {
  }

  lemma FreshRingKeeps(d: Dev, n: int, pages: nat)
    requires Core(d) && d.inflight == [] && d.dpc.Idle? && RingSize(n) && pages <= d.maxRingPages
    ensures Core(FreshRing(d, n, pages)) && SameBooks(d, FreshRing(d, n, pages))
  {
    hide Lists, Sweeping, Bounded;
    InitValid<Request, Response>(n);
  }

  lemma {:induction false} ConnectKeeps(d: Dev, n: int, pages: nat)
    requires Inv(d) && d.inflight == [] && d.dpc.Idle? && RingSize(n) && pages <= d.maxRingPages
    ensures var c := Connect(d, n, pages);
      && Core(c) && Published(c) && SameBooks(d, c)
      && c.live && c.replay == [] && c.inflight == []
      && c.ringGrants == pages && c.grants == pages
      && c.pauseCount == d.pauseCount && c.suspended == d.suspended && c.powered == d.powered && c.dpc == d.dpc
  {
    CoreOf(d);
    hide Places, OnRing, Granted, SameBooks;
    var f := FreshRing(d, n, pages);
    FreshRingKeeps(d, n, pages);
    ReplayAllKeeps(f);
    ReplayAllFrame(f);
    SameBooksTransitive(d, f, ReplayAll(f));
    assert Connect(d, n, pages).grants == pages by { OnlyRing(Connect(d, n, pages)); }
  }

  /** With nothing in flight and nothing to replay, only the ring has grants. */
  lemma OnlyRing(d: Dev)
    requires Core(d) && d.inflight == [] && d.replay == []
    ensures d.grants == d.ringGrants
  {
    hide Places, OnRing;
  }

  /** unpause_datapath, from any point where the accounts are right. */
  lemma UnpauseKeeps(u: Dev, extra: nat)
    requires Core(u) && Published(u) && Conserved(u) && IrpsRight(u)
    requires Controlled(u.(pauseCount := u.pauseCount - 1))
    ensures Inv(Unpause(u, extra))
  {
    hide Places, Granted, Served, Conserved, IrpsRight, StartRequests, Moving, SameBooks;
    var v := u.(pauseCount := u.pauseCount - 1);
    CoreFrame(u, v);
    assert SameBooks(u, v) by { SameBooksFrame(u, v); }
    BooksKept(u, v);
    if v.pauseCount == 0 {
      StartRequestsKeeps(v, extra);
      BooksKept(v, StartRequests(v, extra));
    } else {
      assert Moving(v) by { PausedMoves(v); }
    }
  }

  lemma {:induction false} UnpauseAssertsHold(u: Dev, extra: nat)
    requires Core(u) && Controlled(u.(pauseCount := u.pauseCount - 1))
    ensures (u.ringPresent ==> RingReady(u)) && UnpauseAsserts(u, extra)
  {
    hide Places, Granted, Served, StartAsserts, RingSize;
    var v := u.(pauseCount := u.pauseCount - 1);
    CoreFrame(u, v);
    StartRequestsAssertsHold(v, extra);
  }

  lemma PausedMoves(d: Dev)
    requires d.pauseCount != 0
    ensures Moving(d)
  {
  }

  lemma SameBooksFrame(d: Dev, e: Dev)
    requires e.sched == d.sched && e.inflight == d.inflight && e.replay == d.replay && e.done == d.done
    requires e.accepted == d.accepted && e.finished == d.finished && e.irps == d.irps
    requires e.curOutstanding == d.curOutstanding
    ensures SameBooks(d, e)
  {
  }

  lemma LoseRingKeeps(d: Dev, ungranted: bool)
    requires Inv(d) && d.inflight == [] && d.dpc.Idle? && d.pauseCount > 0
    ensures Inv(if ungranted then LoseRing(d) else d.(ringPresent := false, live := false, held := multiset{}))
    ensures ungranted ==> LoseRing(d).ringGrants == 0 && LoseRing(d).grants == Sum(d.replay, Segments)
  {
    hide Places, IrpsRight, Conserved, Served;
    var e := if ungranted then LoseRing(d) else d.(ringPresent := false, live := false, held := multiset{});
    assert Places(e) by { PlacesFrame(d, e); }
    BooksKept(d, e);
  }

  lemma PlacesFrame(d: Dev, e: Dev)
    requires Places(d) && e.sched == d.sched && e.inflight == d.inflight && e.replay == d.replay && e.done == d.done
    requires e.state == d.state && e.result == d.result
    requires e.nrScheduled == d.nrScheduled && e.nrInflight == d.nrInflight && e.nrReplay == d.nrReplay
    ensures Places(e)
  {
    hide Lists, Sweeping, Bounded, Answered;
  }

  /** Failing the first request that waits for replay. */
  lemma MoveReplayToDone(q: seq<Request>, i: seq<Request>, p: seq<Request>, n: seq<Request>, state: States)
    requires p != [] && Lists(q, i, p, n, state)
    ensures Lists(q, i, p[1..], n + [p[0]], state[p[0].id := Processed])
    ensures multiset(q + i + p[1..] + (n + [p[0]])) == multiset(q + i + p + n)
  {
    var x, t := p[0], p[1..];
    assert p == [x] + t;
    FourLists(q, i, p, n);
    FourLists(q, i, t, n + [x]);
    OnlyHere(multiset(q + i + p + n), x, multiset(q) + multiset(i) + multiset(t) + multiset(n));
    Rearranged(q, i, p, n, q, i, t, n + [x], state, x, Processed);
  }

  lemma AbortOnePlaces(d: Dev)
    requires Places(d) && d.replay != []
    ensures Places(AbortOne(d)) && SameBooks(d, AbortOne(d))
  {
    hide Lists, Sweeping, Bounded, Schedule.Queued;
    MoveReplayToDone(d.sched.Queued(), d.inflight, d.replay, d.done, d.state);
    BoundedSame(d.All(), AbortOne(d).All());
  }

  lemma AbortOneKeeps(d: Dev)
    requires Core(d) && d.replay != []
    ensures Core(AbortOne(d)) && SameBooks(d, AbortOne(d))
  {
    hide Places, Served, SameBooks;
    AbortOnePlaces(d);
    assert d.replay == [d.replay[0]] + d.replay[1..];
  }

  lemma {:induction false} AbortAllKeeps(d: Dev)
    requires Core(d)
    ensures var e := AbortAll(d);
      && Core(e) && SameBooks(d, e) && e.replay == []
      && e == d.(replay := [], nrReplay := e.nrReplay, grants := e.grants,
                 result := e.result, state := e.state, done := e.done)
    decreases |d.replay|
  {
    hide Core, SameBooks;
    if d.replay != [] {
      AbortOneKeeps(d);
      AbortAllKeeps(AbortOne(d));
      SameBooksTransitive(d, AbortOne(d), AbortAll(d));
    } else {
      SameBooksReflexive(d);
    }
  }

  lemma AbortKeeps(d: Dev)
    requires Inv(d) && Enabled(d, AAbort) && Asserts(d, AAbort)
    ensures Inv(Do(d, AAbort))
  {
    hide Places, Served, Granted, IrpsRight, Conserved, SameBooks, AbortAll;
    AbortAllKeeps(d);
    BooksKept(d, AbortAll(d));
  }

  // ============================================================ all steps

  lemma Counters(d: Dev)
    requires Places(d)
    ensures d.nrInflight == |d.inflight| && d.nrReplay == |d.replay| && StateOf(d.state, d.replay, Submitted)
  {
    hide Sweeping, Bounded, Answered, Unique;
  }

  lemma DpcMovesOn(d: Dev, dpc: Dpc)
    requires Inv(d) && (dpc.Polling? ==> (d.live || d.dpc.Polling?) && dpc.prod == d.ring.rspProd)
    ensures Inv(d.(dpc := dpc))
  {
    hide Places, Served, Granted, IrpsRight, Conserved;
    var e := d.(dpc := dpc);
    assert Places(e) by { PlacesFrame(d, e); }
    assert Granted(e) by { GrantedFrame(d, e); }
    assert SameBooks(d, e) by { SameBooksFrame(d, e); }
    BooksKept(d, e);
  }

  /** The DPC polls only a ring that a back end serves. */
  lemma DpcEnterKeeps(d: Dev)
    requires Inv(d) && d.dpc.Idle?
    ensures Inv(DpcEnter(d))
  {
    hide Places, Served, Granted, IrpsRight, Conserved, Moving, Published;
    Counters(d);
    if d.live {
      DpcMovesOn(d, Polling(d.ring.rspProd));
    }
  }

  lemma PowerDownKeeps(d: Dev)
    requires Inv(d) && Enabled(d, APowerDown)
    ensures Inv(d.(powered := false, pauseCount := d.pauseCount + 1))
  {
    hide Places, Served, Granted, IrpsRight, Conserved;
    var e := d.(powered := false, pauseCount := d.pauseCount + 1);
    assert Places(e) by { PlacesFrame(d, e); }
    assert Granted(e) by { GrantedFrame(d, e); }
    assert SameBooks(d, e) by { SameBooksFrame(d, e); }
    BooksKept(d, e);
  }

  lemma ReconnectAssertsHold(d: Dev, n: int, pages: nat, extra: nat, powered: bool, suspended: bool)
    requires Inv(d) && d.inflight == [] && d.dpc.Idle? && RingSize(n) && pages <= d.maxRingPages
    requires !suspended && d.pauseCount - 1 >= (if powered then 0 else 1)
    ensures ReconnectAsserts(d, n, pages)
    ensures RingReady(Connect(d, n, pages))
    ensures UnpauseAsserts(Connect(d, n, pages).(powered := powered, suspended := suspended), extra)
  {
    CoreOf(d);
    FreshRingKeeps(d, n, pages);
    ReplayAssertsHold(FreshRing(d, n, pages));
    ConnectFrame(d, n, pages);
    ConnectKeeps(d, n, pages);
    hide Places, Granted, Served, IrpsRight, Conserved, SameBooks, Connect, UnpauseAsserts, RingReady, Published,
      ReplayAsserts;
    var c := Connect(d, n, pages);
    Counters(c);
    var u := c.(powered := powered, suspended := suspended);
    CoreFrame(c, u);
    UnpauseAssertsHold(u, extra);
  }

  /** Connecting, replaying and unpausing in one step, for power-up and for resume. */
  lemma ReconnectKeeps(d: Dev, n: int, pages: nat, extra: nat, powered: bool, suspended: bool)
    requires Inv(d) && d.inflight == [] && d.dpc.Idle? && RingSize(n) && pages <= d.maxRingPages
    requires !suspended && d.pauseCount - 1 >= (if powered then 0 else 1)
    ensures Connect(d, n, pages).ringPresent && RingReady(Connect(d, n, pages))
    ensures Inv(Unpause(Connect(d, n, pages).(powered := powered, suspended := suspended), extra))
  {
    hide Places, Granted, Served, IrpsRight, Conserved, SameBooks, Connect, Unpause, RingReady, Published;
    ConnectKeeps(d, n, pages);
    var c := Connect(d, n, pages);
    BooksKept(d, c);
    var u := c.(powered := powered, suspended := suspended);
    CoreFrame(c, u);
    assert SameBooks(c, u) by { SameBooksFrame(c, u); }
    BooksKept(c, u);
    UnpauseKeeps(u, extra);
  }

  lemma ResumeOffKeeps(d: Dev)
    requires Inv(d) && Enabled(d, AResumeOff) && Asserts(d, AResumeOff)
    ensures Inv(Do(d, AResumeOff))
  {
    hide Places, Granted, Served, IrpsRight, Conserved, SameBooks, Unpause, RingReady;
    var u := d.(suspended := false);
    CoreFrame(d, u);
    assert SameBooks(d, u) by { SameBooksFrame(d, u); }
    BooksKept(d, u);
    UnpauseKeeps(u, 0);
  }

  lemma ResumeOffAsserts(d: Dev)
    requires Inv(d) && Enabled(d, AResumeOff)
    ensures Asserts(d, AResumeOff)
  {
    hide Places, Granted, Served, IrpsRight, Conserved, RingReady, UnpauseAsserts;
    var u := d.(suspended := false);
    CoreFrame(d, u);
    UnpauseAssertsHold(u, 0);
  }

  lemma ConnectAsserts(d: Dev, a: Action)
    requires Inv(d) && Enabled(d, a) && (a.APowerUp? || a.AResume?)
    ensures Asserts(d, a)
  {
    hide Places, OnRing, Granted, IrpsRight, Conserved, RingReady, UnpauseAsserts, ReconnectAsserts, Connect, Moving,
      Published;
    QuietKeeps(d, a);
    ReplayAllKeepsFlags(d, a.n, a.pages);
    if a.APowerUp? {
      ReconnectAssertsHold(d, a.n, a.pages, a.extra, true, d.suspended);
      SameUnpause(Connect(d, a.n, a.pages), true, d.suspended);
    } else {
      ReconnectAssertsHold(d, a.n, a.pages, a.extra, d.powered, false);
      SameUnpause(Connect(d, a.n, a.pages), d.powered, false);
    }
  }

  lemma SameUnpause(c: Dev, powered: bool, suspended: bool)
    ensures c.suspended == suspended ==> c.(powered := powered) == c.(powered := powered, suspended := suspended)
    ensures c.powered == powered ==> c.(suspended := suspended) == c.(powered := powered, suspended := suspended)
  {
  }

  lemma ReplayAllKeepsFlags(d: Dev, n: int, pages: nat)
    requires n > 0
    ensures Connect(d, n, pages).powered == d.powered && Connect(d, n, pages).suspended == d.suspended
  {
    ReplayAllFrame(FreshRing(d, n, pages));
  }

  /** No assertion of the driver but grant_ring's can fire in a state that satisfies the invariants. */
  lemma NoAssertionFires(d: Dev, a: Action)
    requires Inv(d) && Enabled(d, a)
    ensures Asserts(d, a)
  {
    hide Places, Served, Granted, IrpsRight, Conserved, RingReady;
    match a
    case ASubmit(irp, size, q, extra) => SubmitAsserts(d, irp, size, q, extra);
    case ADpcTake(extra) => TakeAsserts(d, extra);
    case AFinish(k) => DoneIsPending(d, k);
    case AConsume => ConsumeKeeps(d);
    case AAnswer(r, status) => AnswerKeeps(d, r, status);
    case APowerDown => Counters(d);
    case APowerUp(n, pages, extra) => ConnectAsserts(d, a);
    case AResume(n, pages, extra) => ConnectAsserts(d, a);
    case AResumeOff => ResumeOffAsserts(d);
    case AAbort => AbortAssertsHold(d);
    case _ =>
  }

  /** Every step keeps every invariant. */
  lemma StepKeepsInv(d: Dev, a: Action)
    requires Inv(d) && Enabled(d, a) && Asserts(d, a)
    ensures Inv(Do(d, a))
  {
    hide Inv;
    match a
    case ASubmit(irp, size, q, extra) => SubmitKeeps(d, irp, size, q, extra);
    case ADpcEnter => DpcEnterKeeps(d);
    case ADpcTake(extra) => DpcTakeKeeps(d, extra);
    case ADpcAgain => DpcMovesOn(d, Polling(d.ring.rspProd));
    case ADpcExit => DpcMovesOn(d, Idle);
    case AFinish(k) => FinishKeeps(d, k);
    case AConsume => ConsumeKeeps(d);
    case AAnswer(r, status) => AnswerKeeps(d, r, status);
    case APublish => PublishKeeps(d);
    case APowerDown => PowerDownKeeps(d);
    case AClose => QuietKeeps(d, a); LoseRingKeeps(d, true);
    case APowerUp(n, pages, extra) => QuietKeeps(d, a); ReconnectKeeps(d, n, pages, extra, true, d.suspended);
    case ASuspend => RescueKeeps(d, true);
    case AResume(n, pages, extra) => QuietKeeps(d, a); ReconnectKeeps(d, n, pages, extra, d.powered, false);
    case AResumeOff => ResumeOffKeeps(d);
    case AConnectFails => QuietKeeps(d, a); LoseRingKeeps(d, false);
    case AConnectLost(pages, extra) => QuietKeeps(d, a); LoseRingKeeps(d, true);
    case ADehibernate => RescueKeeps(d, false);
    case AAbort => AbortKeeps(d);
  }

  /** The ring is only replaced or given up when nothing is in flight and the datapath is paused. */
  lemma QuietKeeps(d: Dev, a: Action)
    requires Inv(d) && Enabled(d, a) && (a.AClose? || a.AConnectFails? || GrantsRing(a))
    ensures d.inflight == [] && d.dpc.Idle? && d.pauseCount > 0
    ensures a.APowerUp? ==>
      RingSize(a.n) && a.pages <= d.maxRingPages && Connect(d, a.n, a.pages).suspended == d.suspended
    ensures a.AResume? ==> RingSize(a.n) && a.pages <= d.maxRingPages && Connect(d, a.n, a.pages).powered == d.powered
  {
    hide Places, Served, Granted, IrpsRight, Conserved, RingReady, Connect;
    Counters(d);
    if a.APowerUp? || a.AResume? {
      ReplayAllKeepsFlags(d, a.n, a.pages);
    }
  }
}
