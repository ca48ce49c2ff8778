/** Two runs of the datapath at which the code does less than its comments say. */
module DatapathExamples {
  import Bits
  import opened Blkif
  import opened RingIndex
  import opened SharedRing
  import opened Elevator
  import opened Measures
  import opened Datapath
  import opened DatapathSafety
  import opened DatapathRuns
  import opened DatapathDrain

  /** A device with one ring page, switched on with a ring of `n` entries. */
  function Up(n: int): Dev
    requires n > 0
  {
    Fresh(1).(ringPresent := true, live := true, ring := Init(n), grants := 1, ringGrants := 1,
              pauseCount := 0, powered := true)
  }

  lemma {:induction false} NothingToStart(d: Dev)
    requires RingReady(d) && d.sched == Schedule([], []) && d.ring.reqProd == d.ring.reqPvt
    ensures StartAll(d, 0) == d
  {
    assert Push(d) == d;
    assert d.(sched := Flip(d.sched)) == d;
  }

  lemma {:induction false} ConnectIs(n: int)
    requires n > 0
    ensures Connect(Fresh(1), n, 1).(powered := true) == Up(n).(pauseCount := 1)
  {
    assert FreshRing(Fresh(1), n, 1).replay == [];
  }

  lemma {:induction false} UnpauseIs(n: int)
    requires RingSize(n) && n > 0
    ensures RingReady(Up(n)) && Unpause(Up(n).(pauseCount := 1), 0) == Up(n)
  {
    NothingToStart(Up(n));
  }

  lemma {:induction false} PowerUpEnabled(n: int)
    requires RingSize(n) && n > 0
    ensures Enabled(Fresh(1), APowerUp(n, 1, 0)) && RingCovered(Fresh(1), APowerUp(n, 1, 0))
  {
  }

  lemma {:induction false} PowerUpIs(n: int)
    requires RingSize(n) && n > 0 && Asserts(Fresh(1), APowerUp(n, 1, 0))
    ensures Do(Fresh(1), APowerUp(n, 1, 0)) == Up(n)
  {
    ConnectIs(n);
    UnpauseIs(n);
    hide Connect, Unpause, Fresh, Up, Asserts;
  }

  /** A run that ends in `d`. */
  ghost predicate RunTo(s: seq<Dev>, a: seq<Action>, d: Dev) {
    IsRun(s, a) && |s| == |a| + 1 && s[|a|] == d
  }

  lemma {:induction false} Go(s: seq<Dev>, a: seq<Action>, d: Dev, b: Action) returns (t: seq<Dev>, c: seq<Action>)
    requires RunTo(s, a, d) && Enabled(d, b) && RingCovered(d, b)
    ensures Asserts(d, b) && RunTo(t, c, Do(d, b)) && |c| == |a| + 1 && |t| == |c| + 1 && t[|a|] == d && Inv(Do(d, b))
  {
    hide Asserts, Do, Enabled, Inv;
    Extend(s, a, b);
    t, c := s + [Do(d, b)], a + [b];
    DatapathRuns.EveryRun(t, c, |c|);
  }

  /** The run that switches the device on. */
  lemma {:induction false} UpRun(n: int) returns (s: seq<Dev>, a: seq<Action>)
    requires RingSize(n) && n > 0
    ensures RunTo(s, a, Up(n))
  {
    hide Asserts, Do, Enabled, Up, Inv;
    s, a := [Fresh(1)], [];
    assert RunTo(s, a, Fresh(1));
    PowerUpEnabled(n);
    s, a := Go(s, a, Fresh(1), APowerUp(n, 1, 0));
    PowerUpIs(n);
  }

  /** Two requests of one IRP, `k` segments each. */
  function Pages(k: nat): (f: seq<Fragment>)
    ensures |f| == k
  {
    seq(k, i => Fragment(i, 0, 7))
  }

  function First(k: nat): Request {
    Request(0, 0, false, 0, Pages(k), 4096)
  }

  function Second(k: nat): Request {
    Request(1, 0, false, 8, Pages(k), 4096)
  }

  function Both(k: nat): seq<Request> {
    [First(k), Second(k)]
  }

  function Size(): Extent {
    Extent(16, 512)
  }

  lemma BothBytes(k: nat)
    ensures Sum(Both(k), BytesOf(0)) == Size().Bytes()
  {
    var x, y := First(k), Second(k);
    assert Both(k) == [x] + [y];
    SumConcat([x], [y], BytesOf(0));
    SumOne(x, BytesOf(0));
    SumOne(y, BytesOf(0));
  }

  /** Both are queued, in order. */
  lemma {:induction false} BothQueued(d: Dev, k: nat)
    requires d.sched == Schedule([], [])
    ensures EnqueueAll(d, Both(k)).sched == Schedule(Both(k), [])
    ensures EnqueueAll(d, Both(k)) == d.(sched := Schedule(Both(k), []), nrScheduled := d.nrScheduled + 2,
                                         state := d.state[0 := Queued][1 := Queued])
  {
    var x, y := First(k), Second(k);
    var e := EnqueueOne(d, x);
    assert Both(k)[1..] == [y];
    assert e.sched == Schedule([x], []);
    assert Position([x], 8) == 1 by {
      assert [x][1..] == [];
    }
    assert Insert([x], y) == [x, y];
    assert EnqueueAll(e, [y]) == EnqueueOne(e, y) by {
      assert [y][1..] == [];
    }
  }

  /** The submission up to the start of requests. */
  function Waiting(n: int, k: nat): Dev
    requires n > 0
  {
    EnqueueAll(Accept(Up(n), 0, Size(), Both(k)), Both(k))
  }

  lemma {:induction false} SubmitBoth(n: int, k: nat, extra: nat)
    requires RingSize(n) && n > 0 && 1 <= k <= MAX_SEGMENTS
    ensures Enabled(Up(n), ASubmit(0, Size(), Both(k), extra))
    ensures Submit(Up(n), 0, Size(), Both(k), extra) == StartAll(Waiting(n, k), extra)
    ensures var w := Waiting(n, k);
      && w.sched == Schedule(Both(k), []) && w.inflight == [] && w.replay == [] && w.grants == 1 && w.ringGrants == 1
      && w.ring == Init(n) && w.ringPresent && w.live && w.pauseCount == 0 && w.powered && !w.suspended && w.dpc == Idle
      && w.held == multiset{} && w.maxRingPages == 1 && w.nrInflight == 0
  {
    BothBytes(k);
    hide NewIrp, MarkInitialised, Sum;
    BothQueued(Accept(Up(n), 0, Size(), Both(k)), k);
  }

  /** Starting the request at the head of `[x] + rest`. */
  lemma {:induction false} StartHead(d: Dev, x: Request, rest: seq<Request>)
    requires RingReady(d) && d.sched == Schedule([x] + rest, [])
    ensures Flip(d.sched) == d.sched
    ensures StartOne(d) == d.(sched := Schedule(rest, []), nrScheduled := d.nrScheduled - 1,
                              ring := PutRequest(d.ring, x),
                              inflight := d.inflight + [x], nrInflight := d.nrInflight + 1,
                              grants := d.grants + x.segments, state := d.state[x.id := Submitted])
  {
    assert ([x] + rest)[1..] == rest;
  }

  // ------------------------------------------------------------ the reserve does not cover the ring

  /** One turn of the starting loop, on a request that the cache can grant. */
  lemma {:induction false} StartTurnIs(d: Dev, x: Request, rest: seq<Request>, extra: nat)
    requires RingReady(d) && d.sched == Schedule([x] + rest, []) && !d.ring.Full() && CanGrant(d, x, extra)
    ensures StartAll(d, extra) == StartAll(StartOne(d), extra)
    ensures var e := StartOne(d);
      && e == d.(sched := Schedule(rest, []), nrScheduled := d.nrScheduled - 1, ring := PutRequest(d.ring, x),
                 inflight := d.inflight + [x], nrInflight := d.nrInflight + 1,
                 grants := d.grants + x.segments, state := d.state[x.id := Submitted])
      && RingReady(e)
  {
    StartHead(d, x, rest);
    hide StartOne;
    assert d.(sched := Flip(d.sched)) == d;
  }

  lemma {:induction false} FullStops(d: Dev, extra: nat)
    requires RingReady(d) && d.ring.Full()
    ensures StartAll(d, extra) == Push(d)
  {
  }

  /** On a ring of two both requests start if the cache supplies eleven references beyond its reserve. */
  lemma {:induction false} BothStart()
    requires RingSize(2)
    ensures var e := Submit(Up(2), 0, Size(), Both(11), 11);
      && e.inflight == Both(11) && e.replay == [] && e.grants == 23 && e.ringGrants == 1 && e.maxRingPages == 1
      && e.dpc == Idle && e.powered
  {
    SubmitBoth(2, 11, 11);
    hide Waiting, Submit, StartAll;
    var w, x, y := Waiting(2, 11), First(11), Second(11);
    assert Both(11) == [x] + [y];
    StartTurnIs(w, x, [y], 11);
    var v := StartOne(w);
    hide StartOne;
    assert [y] + [] == [y];
    StartTurnIs(v, y, [], 11);
    var u := StartOne(v);
    FullStops(u, 11);
    assert u.inflight == [x] + [y];
  }

  /** The run up to the submission. */
  lemma {:induction false} SubmitRun(n: int, k: nat, extra: nat) returns (s: seq<Dev>, a: seq<Action>)
    requires RingSize(n) && n > 0 && 1 <= k <= MAX_SEGMENTS
    ensures (Up(n).ringPresent ==> RingReady(Up(n))) && RunTo(s, a, Submit(Up(n), 0, Size(), Both(k), extra))
    ensures Inv(Submit(Up(n), 0, Size(), Both(k), extra))
  {
    s, a := UpRun(n);
    SubmitBoth(n, k, extra);
    hide Submit, RunTo, Up, Both, Inv;
    s, a := Go(s, a, Up(n), ASubmit(0, Size(), Both(k), extra));
  }

  /** Suspending and resuming with 22 segments to replay. */
  lemma {:induction false} SuspendNotCovered(e: Dev)
    requires e.dpc == Idle && e.powered && e.grants == 23 && e.ringGrants == 1 && e.maxRingPages == 1 && RingSize(2)
    ensures Enabled(e, ASuspend) && RingCovered(e, ASuspend) && Asserts(e, ASuspend)
    ensures Enabled(Do(e, ASuspend), AResume(2, 1, 0)) && !RingCovered(Do(e, ASuspend), AResume(2, 1, 0))
    ensures Enabled(Do(e, ASuspend), AConnectLost(1, 0)) && !RingCovered(Do(e, ASuspend), AConnectLost(1, 0))
  {
  }

  /** A suspend with 22 segments on the ring, and a resume for which the cache supplies no more than its
      reserve of 12: the assertion of grant_ring fails, whether the back end would have connected or not. */
  lemma {:induction false} RingNotCovered() returns (s: seq<Dev>, a: seq<Action>)
    ensures IsRun(s, a) && |s| == |a| + 1
    ensures Enabled(s[|a|], AResume(2, 1, 0)) && !RingCovered(s[|a|], AResume(2, 1, 0))
    ensures Enabled(s[|a|], AConnectLost(1, 0)) && !RingCovered(s[|a|], AConnectLost(1, 0))
  {
    RingTwo();
    s, a := SubmitRun(2, 11, 11);
    BothStart();
    var e := Submit(Up(2), 0, Size(), Both(11), 11);
    SuspendNotCovered(e);
    hide Submit, IsRun, Up, Both, Inv, Enabled, RingCovered, Do, Asserts;
    s, a := Go(s, a, e, ASuspend);
  }

  lemma RingTwo()
    ensures RingSize(1) && RingSize(2)
  {
    assert Bits.IsPow2(1);
  }

  // ------------------------------------------------------------ a paused device starts a request

  lemma {:induction false} OneOnRing(r: Ring<Request, Datapath.Response>, x: Request)
    requires r == Init(1) && RingSize(1)
    ensures PutRequest(r, x) == Ring(1, [Req(x)], 1, 0, 0, 0, 0, 0) && PutRequest(r, x).Full()
  {
    assert r.slots[0 := Req(x)] == [Req(x)];
  }

  /** On a ring of one the first request is started and the second waits. */
  lemma {:induction false} OneStarts()
    requires RingSize(1)
    ensures var e := Submit(Up(1), 0, Size(), Both(1), 0);
      && e.sched == Schedule([Second(1)], []) && e.inflight == [First(1)] && e.replay == []
      && e.nrInflight == 1 && e.grants == 2 && e.maxRingPages == 1 && e.dpc == Idle
      && e.powered && e.pauseCount == 0 && e.live && e.ringPresent
      && e.held == multiset{}
      && e.ring == RingBefore()
  {
    SubmitBoth(1, 1, 0);
    hide Waiting, Submit, StartAll;
    var w, x, y := Waiting(1, 1), First(1), Second(1);
    assert Both(1) == [x] + [y];
    StartTurnIs(w, x, [y], 0);
    var v := StartOne(w);
    hide StartOne;
    OneOnRing(w.ring, x);
    hide PutRequest;
    FullStops(v, 0);
  }

  /** The state of interest: one request in flight, one queued. */
  ghost predicate HalfStarted(d: Dev, paused: int) {
    && d.sched == Schedule([Second(1)], []) && d.inflight == [First(1)] && d.nrInflight == 1
    && d.grants == 2 && d.maxRingPages == 1 && d.pauseCount == paused && d.live && d.ringPresent
  }

  /** The ring of one before and after the back end has served the request. */
  function RingBefore(): Ring<Request, Datapath.Response> {
    Ring(1, [Req(First(1))], 1, 1, 0, 0, 0, 0)
  }

  function RingAfter(): Ring<Request, Datapath.Response> {
    Ring(1, [Rsp(Response(First(1), OKAY))], 1, 1, 0, 1, 1, 1)
  }

  lemma {:induction false} Consumed(d: Dev)
    requires d.ring == RingBefore() && d.held == multiset{} && d.live && Asserts(d, AConsume)
    ensures Do(d, AConsume) == d.(ring := RingBefore().(reqCons := 1), held := multiset{First(1)})
  {
  }

  lemma {:induction false} AnsweredOne(d: Dev)
    requires d.ring == RingBefore().(reqCons := 1) && d.held == multiset{First(1)}
    requires Asserts(d, AAnswer(First(1), OKAY))
    ensures Do(d, AAnswer(First(1), OKAY)) == d.(ring := RingAfter().(rspProd := 0), held := multiset{})
  {
    assert d.ring.slots[0 := Rsp(Response(First(1), OKAY))] == [Rsp(Response(First(1), OKAY))];
  }

  lemma {:induction false} ServeRun(s0: seq<Dev>, a0: seq<Action>, d: Dev) returns (s: seq<Dev>, a: seq<Action>)
    requires RunTo(s0, a0, d) && HalfStarted(d, 1) && d.dpc == Idle && d.ring == RingBefore() && d.held == multiset{}
    ensures RunTo(s, a, d.(ring := RingAfter(), dpc := Polling(1)))
    ensures Inv(d.(ring := RingAfter(), dpc := Polling(1)))
  {
    hide RunTo, Inv, Asserts;
    s, a := Go(s0, a0, d, AConsume);
    Consumed(d);
    var d1 := d.(ring := RingBefore().(reqCons := 1), held := multiset{First(1)});
    hide Do;
    s, a := Go(s, a, d1, AAnswer(First(1), OKAY));
    AnsweredOne(d1);
    var d2 := d.(ring := RingAfter().(rspProd := 0));
    s, a := Go(s, a, d2, APublish);
    PublishedOne(d2);
    s, a := Go(s, a, d2.(ring := RingAfter()), ADpcEnter);
    EnteredDpc(d2.(ring := RingAfter()));
  }

  lemma {:induction false} PublishedOne(d: Dev)
    requires d.ring == RingAfter().(rspProd := 0) && Asserts(d, APublish)
    ensures Do(d, APublish) == d.(ring := RingAfter())
  {
  }

  lemma {:induction false} EnteredDpc(d: Dev)
    requires d.ringPresent && d.nrInflight == 1 && d.ring == RingAfter() && Asserts(d, ADpcEnter)
    ensures Do(d, ADpcEnter) == d.(dpc := Polling(1))
  {
  }

  /** The device is paused with one request in flight and one queued; when the first comes back the second is put on
      the ring. */
  lemma {:induction false} PausedStarts() returns (s: seq<Dev>, a: seq<Action>)
    ensures IsRun(s, a) && |a| > 0 && |s| == |a| + 1
    ensures s[|a| - 1].pauseCount > 0 && s[|a|].pauseCount > 0 && s[|a|].ring.reqPvt != s[|a| - 1].ring.reqPvt
  {
    RingTwo();
    s, a := SubmitRun(1, 1, 0);
    OneStarts();
    var e := Submit(Up(1), 0, Size(), Both(1), 0);
    hide Submit, Up, Both, Inv, Asserts, IsRun, Enabled, Do, RingCovered;
    PausedEnabled(e);
    s, a := Go(s, a, e, APowerDown);
    var d := e.(powered := false, pauseCount := 1);
    PausedOne(e);
    s, a := ServeRun(s, a, d);
    var f := d.(ring := RingAfter(), dpc := Polling(1));
    TakeEnabled(f);
    DpcStartsIff(f, 0);
    s, a := Go(s, a, f, ADpcTake(0));
    PauseKept(f);
  }

  lemma {:induction false} PausedEnabled(e: Dev)
    requires e.dpc == Idle && e.powered
    ensures Enabled(e, APowerDown) && RingCovered(e, APowerDown)
  {
  }

  lemma {:induction false} TakeEnabled(f: Dev)
    requires HalfStarted(f, 1) && f.ring == RingAfter() && f.dpc == Polling(1) && RingSize(1)
    ensures Enabled(f, ADpcTake(0)) && RingCovered(f, ADpcTake(0))
    ensures RingReady(f) && f.sched.Queued() != [] && NextGrantable(f, 0)
  {
  }

  lemma {:induction false} PausedOne(e: Dev)
    requires e.pauseCount == 0 && Asserts(e, APowerDown)
    ensures Do(e, APowerDown) == e.(powered := false, pauseCount := 1)
  {
  }

  lemma {:induction false} PauseKept(d: Dev)
    requires Asserts(d, ADpcTake(0))
    ensures Do(d, ADpcTake(0)).pauseCount == d.pauseCount
  {
  }
}
