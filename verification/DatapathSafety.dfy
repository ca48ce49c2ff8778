/** Every run of the datapath keeps its books: no request is lost, duplicated or
    finished twice, no assertion of the driver can fire, and the schedule never stalls.
  */
module DatapathSafety {
  import opened Blkif
  import opened RingIndex
  import opened SharedRing
  import opened Elevator
  import opened Measures
  import opened Datapath

  // ============================================================ invariants

  type States = map<nat, SfrState>

  /** Every request of `q` is in state `s`. */
  ghost predicate StateOf(state: States, q: seq<Request>, s: SfrState) {
    forall r :: r in q ==> r.id in state && state[r.id] == s
  }

  /** No request occurs twice, and different requests have different addresses. */
  ghost predicate Unique(m: multiset<Request>) {
    && (forall r :: r in m ==> m[r] == 1)
    && (forall r, s :: r in m && s in m && r.id == s.id ==> r == s)
  }

  /** Each request is on exactly one list, in the state that belongs to the list. */
  ghost predicate Lists(queued: seq<Request>, inflight: seq<Request>, replay: seq<Request>, done: seq<Request>,
                        state: States)
  {
    && Unique(multiset(queued + inflight + replay + done))
    && StateOf(state, queued, Queued)
    && StateOf(state, inflight, Submitted)
    && StateOf(state, replay, Submitted)
    && StateOf(state, done, Processed)
  }

  ghost predicate Bounded(q: seq<Request>) {
    forall r :: r in q ==> 1 <= r.segments <= MAX_SEGMENTS
  }

  ghost predicate Answered(done: seq<Request>, result: map<nat, int>) {
    forall r :: r in done ==> r.id in result
  }

  /** The lists are right, and the counters are their lengths. */
  ghost predicate Places(d: Dev) {
    && Lists(d.sched.Queued(), d.inflight, d.replay, d.done, d.state)
    && Bounded(d.All())
    && Answered(d.done, d.result)
    && d.nrScheduled == |d.sched.Queued()|
    && d.nrInflight == |d.inflight|
    && d.nrReplay == |d.replay|
    && Sweeping(d.sched)
  }

  ghost function Retired(f: seq<Finish>): multiset<Request> {
    if f == [] then multiset{} else Retired(f[..|f| - 1]) + multiset{f[|f| - 1].req}
  }

  /** Every request ever accepted is still on a list or was finished, exactly once. */
  ghost predicate Conserved(d: Dev) {
    d.accepted == multiset(d.All()) + Retired(d.finished)
  }

  ghost function Sfrs(q: seq<Response>): multiset<Request> {
    if q == [] then multiset{} else multiset{q[0].sfr} + Sfrs(q[1..])
  }

  /** The requests in flight are exactly those on the ring, those in the back end's
      hands and those answered. */
  ghost predicate Served(ring: Ring<Request, Response>, held: multiset<Request>, inflight: seq<Request>) {
    && ring.Valid()
    && ring.Outstanding() == |inflight|
    && ring.Unanswered() == |held|
    && multiset(inflight) == multiset(ring.Requests()) + held + Sfrs(ring.Responses())
  }

  /** A ring that is there is usable, and one that a back end serves is right. */
  ghost predicate OnRing(d: Dev) {
    && (d.ringPresent ==> RingReady(d))
    && (d.live ==> d.ringPresent && Served(d.ring, d.held, d.inflight))
    && (d.dpc.Polling? ==> d.live && Diff(d.dpc.prod, d.ring.rspCons) <= Diff(d.ring.rspProd, d.ring.rspCons))
  }

  /** Nothing on the ring is left unpublished when the lock is free. */
  ghost predicate Published(d: Dev) {
    d.live ==> d.ring.reqProd == d.ring.reqPvt
  }

  /** The grant references in use belong to the ring, to requests in flight and to
      requests waiting for replay. */
  ghost predicate Granted(d: Dev) {
    && d.grants == d.ringGrants + Sum(d.inflight, Segments) + Sum(d.replay, Segments)
    && d.ringGrants <= d.maxRingPages
  }

  /** The datapath is paused whenever it is suspended, switched off, not connected or has
      requests to replay; nothing is in flight unless a back end serves the ring. */
  ghost predicate Controlled(d: Dev) {
    && d.pauseCount >= (if d.suspended then 1 else 0) + (if d.powered then 0 else 1)
    && (d.pauseCount == 0 ==> d.live)
    && (d.live ==> d.replay == [])
    && (!d.live ==> d.inflight == [])
    && (d.suspended ==> !d.live)
    // only a power-down drains requests that are already in flight
    && (d.powered && d.pauseCount != 0 ==> d.inflight == [])
  }

  /** An unpaused datapath with queued requests has something in flight whose completion
      will start them. */
  ghost predicate Moving(d: Dev) {
    d.pauseCount == 0 ==> Busy(d)
  }

  ghost predicate Busy(d: Dev) {
    d.sched.Queued() != [] ==> d.inflight != []
  }

  ghost predicate AllOkay(f: seq<Finish>, irp: nat) {
    forall k :: 0 <= k < |f| && f[k].req.irp == irp ==> f[k].result == OKAY
  }

  ghost function BytesDone(f: seq<Finish>, irp: nat): nat {
    if f == [] then 0 else BytesDone(f[..|f| - 1], irp) + Weigh(f[|f| - 1].req, BytesOf(irp))
  }

  /** An IRP with `active` requests to go, which have `bytes` bytes between them. */
  ghost predicate IrpRight(i: Irp, irp: nat, active: nat, bytes: nat, f: seq<Finish>) {
    && (i.status.Pending? <==> active > 0)
    && (active > 0 ==> i.outstanding == active && i.completions == 0)
    && (active == 0 ==> i.completions == 1 && (i.status.Success? <==> i.srbOk))
    && (i.srbOk <==> AllOkay(f, irp))
    && i.size.Bytes() == bytes + BytesDone(f, irp)
    && (i.srbOk ==> i.information == BytesDone(f, irp))
  }

  /** The IRPs agree with the requests `all` that are still to be completed. */
  ghost predicate IrpBooks(all: seq<Request>, irps: map<nat, Irp>, f: seq<Finish>, outstanding: int) {
    && outstanding == |all|
    && (forall r :: r in all ==> r.irp in irps)
    && (forall x :: x in f ==> x.req.irp in irps)
    && (forall i :: i in irps ==> IrpRight(irps[i], i, Sum(all, CountOf(i)), Sum(all, BytesOf(i)), f))
  }

  ghost predicate IrpsRight(d: Dev) {
    IrpBooks(d.All(), d.irps, d.finished, d.curOutstanding)
  }

  ghost predicate Inv(d: Dev) {
    && Places(d)
    && Conserved(d)
    && OnRing(d)
    && Published(d)
    && Granted(d)
    && Controlled(d)
    && Moving(d)
    && IrpsRight(d)
  }

  // ============================================================ steps

  datatype Action =
    // front end
    | ASubmit(irp: nat, size: Extent, q: seq<Request>, extra: nat)
    | ADpcEnter | ADpcTake(extra: nat) | ADpcAgain | ADpcExit
    | AFinish(k: nat)
    // back end
    | AConsume | AAnswer(r: Request, status: int) | APublish
    // power management; connecting and unpausing are one step
    | APowerDown | AClose | APowerUp(n: int, pages: nat, extra: nat)
    // suspend and resume
    | ASuspend | AResume(n: int, pages: nat, extra: nat) | AResumeOff
    // a connect that fails before, or after, the new ring was granted
    | AConnectFails | AConnectLost(pages: nat, extra: nat)
    | ADehibernate | AAbort

  /** The requests that filter_process_irp has initialised for a new IRP; Scsifilt.FilterProcessIrp derives
      this from the SRB. */
  ghost predicate NewRequests(d: Dev, irp: nat, size: Extent, q: seq<Request>) {
    && q != []
    && (forall r :: r in q ==> r.irp == irp && 1 <= r.segments <= MAX_SEGMENTS && r.id !in d.state)
    && (forall i, j :: 0 <= i < j < |q| ==> q[i].id != q[j].id)
    && Sum(q, BytesOf(irp)) == size.Bytes()
  }

  /** A ring of legal size. */
  ghost predicate LegalRing(d: Dev, n: int, pages: nat) {
    RingSize(n) && LegalPages(d, pages)
  }

  predicate LegalPages(d: Dev, pages: nat) {
    1 <= pages <= d.maxRingPages
  }

  /** The device is being connected: after a power-up, or after a suspend. */
  predicate Connecting(d: Dev) {
    d.dpc.Idle? && if d.powered then d.suspended else !d.suspended && !d.ringPresent
  }

  /** The steps that call grant_ring. */
  predicate GrantsRing(a: Action) {
    a.APowerUp? || a.AResume? || a.AConnectLost?
  }

  /** grant_ring's assertion: after the old ring is ungranted the cache supplies every page of the new one. */
  predicate RingCovered(d: Dev, a: Action) {
    GrantsRing(a) ==> d.grants - d.ringGrants + a.pages <= d.Reserve() + a.extra
  }

  /** When a step may happen.  A front-end step other than the DPC's needs the ring lock;
      the back end answers what it has consumed, once. */
  ghost predicate Enabled(d: Dev, a: Action) {
    match a
    case ASubmit(irp, size, q, _) => d.dpc.Idle? && irp !in d.irps && NewRequests(d, irp, size, q)
    case ADpcEnter => d.dpc.Idle?
    case ADpcTake(_) => d.dpc.Polling? && d.ring.rspCons != d.dpc.prod
    case ADpcAgain => d.dpc.Polling? && d.ring.rspCons == d.dpc.prod != d.ring.rspProd
    case ADpcExit => d.dpc.Polling? && d.ring.rspCons == d.dpc.prod == d.ring.rspProd
    case AFinish(k) => k < |d.done|
    case AConsume => d.live && d.ring.reqCons != d.ring.reqProd
    case AAnswer(r, _) => d.live && r in d.held
    case APublish => d.live
    case APowerDown => d.dpc.Idle? && d.powered
    case AClose => d.dpc.Idle? && !d.powered && d.nrInflight == 0
    case APowerUp(n, pages, _) => Connecting(d) && !d.powered && LegalRing(d, n, pages)
    case ASuspend => d.dpc.Idle?
    case AResume(n, pages, _) => Connecting(d) && d.powered && LegalRing(d, n, pages)
    case AResumeOff => d.dpc.Idle? && d.suspended && !d.powered
    case AConnectFails => Connecting(d)
    case AConnectLost(pages, _) => Connecting(d) && LegalPages(d, pages)
    case ADehibernate => d.dpc.Idle?
    case AAbort => d.dpc.Idle?
  }

  lemma {:induction false} ReplayAllFrame(d: Dev)
    ensures var e := ReplayAll(d);
      && e == d.(sched := e.sched, nrScheduled := e.nrScheduled, state := e.state,
                 replay := [], nrReplay := e.nrReplay, grants := e.grants)
      && e.nrReplay == d.nrReplay - |d.replay|
    decreases |d.replay|
  {
    if d.replay != [] {
      ReplayAllFrame(ReplayOne(d));
    }
  }

  lemma ConnectFrame(d: Dev, n: int, pages: nat)
    requires n > 0
    ensures Connect(d, n, pages).ring == Init(n) && Connect(d, n, pages).ringPresent
    ensures RingSize(n) ==> RingReady(Connect(d, n, pages))
  {
    ReplayAllFrame(FreshRing(d, n, pages));
  }

  /** Connecting replays what waits, and finds nothing in flight. */
  ghost predicate ReconnectAsserts(d: Dev, n: int, pages: nat)
    requires RingSize(n)
    ensures ReconnectAsserts(d, n, pages) ==> RingReady(Connect(d, n, pages))
  {
    ConnectFrame(d, n, pages);
    ReplayAsserts(FreshRing(d, n, pages)) && Connect(d, n, pages).nrInflight == 0
  }

  /** The driver's assertions at a step, but for RingCovered; see NoAssertionFires. */
  ghost predicate Asserts(d: Dev, a: Action) {
    match a
    case ASubmit(irp, size, q, extra) =>
      && (d.ringPresent ==> RingReady(d))
      && var d1 := Accept(d, irp, size, q);
         EnqueueAsserts(d1, q) && StartRequestsAsserts(EnqueueAll(d1, q), extra)
    case ADpcTake(_) =>
      // the slot holds a response, to a submitted request that is in flight
      && RingReady(d)
      && TakeResponse(d.ring).0.Rsp?
      && var r := TakeResponse(d.ring).0.rsp.sfr;
         r in d.inflight && InState(d, r, Submitted) && StartNextAsserts(Retire(d))
    case AFinish(k) =>
      && k < |d.done|
      && var r := d.done[k];
         && InState(d, r, Processed)
         && r.id in d.result
         && r.irp in d.irps && d.irps[r.irp].status == Pending
    case AConsume => RingReady(d) && TakeRequest(d.ring).0.Req?
    case AAnswer(_, _) => RingReady(d)
    case APowerDown => d.pauseCount + 1 == 1 || d.nrInflight == 0
    case APowerUp(n, pages, extra) =>
      RingSize(n) && ReconnectAsserts(d, n, pages) && UnpauseAsserts(Connect(d, n, pages).(powered := true), extra)
    case AResume(n, pages, extra) =>
      RingSize(n) && ReconnectAsserts(d, n, pages) && UnpauseAsserts(Connect(d, n, pages).(suspended := false), extra)
    case AResumeOff => (d.ringPresent ==> RingReady(d)) && UnpauseAsserts(d.(suspended := false), 0)
    case AAbort => AbortAsserts(d)
    case _ => true
  }

  function Do(d: Dev, a: Action): Dev
    requires Asserts(d, a)
  {
    match a
    case ASubmit(irp, size, q, extra) => Submit(d, irp, size, q, extra)
    case ADpcEnter => DpcEnter(d)
    case ADpcTake(extra) => DpcTake(d, extra)
    case ADpcAgain => d.(dpc := Polling(d.ring.rspProd))
    case ADpcExit => d.(dpc := Idle)
    case AFinish(k) => FinishOne(d, k)
    case AConsume => var (e, ring') := TakeRequest(d.ring); d.(ring := ring', held := d.held + multiset{e.req})
    case AAnswer(r, status) => d.(ring := PutResponse(d.ring, Response(r, status)), held := d.held - multiset{r})
    case APublish => d.(ring := PushResponses(d.ring))
    case APowerDown => d.(powered := false, pauseCount := d.pauseCount + 1)
    case AClose => LoseRing(d)
    case APowerUp(n, pages, extra) =>
      var c := Connect(d, n, pages);
      Unpause(c.(powered := true), extra)
    case ASuspend => Rescue(d, true)
    case AResume(n, pages, extra) =>
      var c := Connect(d, n, pages);
      Unpause(c.(suspended := false), extra)
    case AResumeOff => Unpause(d.(suspended := false), 0)
    case AConnectFails => d.(ringPresent := false, live := false, held := multiset{})
    case AConnectLost(_, _) => LoseRing(d)  // the new ring was granted and ungranted again
    case ADehibernate => Rescue(d, false)
    case AAbort => AbortAll(d)
  }

  // ============================================================ moving requests between lists

  /** The invariants that hold at every point inside a critical section. */
  ghost predicate Core(d: Dev) {
    Places(d) && OnRing(d) && Granted(d)
  }

  /** `e` has the same requests as `d`, and the same IRPs and history. */
  ghost predicate SameBooks(d: Dev, e: Dev) {
    && multiset(e.All()) == multiset(d.All())
    && e.accepted == d.accepted && e.finished == d.finished
    && e.irps == d.irps && e.curOutstanding == d.curOutstanding
  }

  lemma SameBooksTransitive(d: Dev, e: Dev, f: Dev)
    requires SameBooks(d, e) && SameBooks(e, f)
    ensures SameBooks(d, f)
  {
    hide Dev.All;
  }

  /** Changing the IRPs, the history or the control fields does not disturb the lists. */
  lemma CoreFrame(d: Dev, e: Dev)
    requires Core(d)
    requires e == d.(irps := e.irps, curOutstanding := e.curOutstanding, accepted := e.accepted, finished := e.finished,
                     pauseCount := e.pauseCount, suspended := e.suspended, powered := e.powered)
    ensures Core(e) && e.All() == d.All() && (Published(d) ==> Published(e))
  {
    hide Lists, Served, Sweeping, Bounded, Answered, Sum, Schedule.Queued;
  }

  lemma IrpBooksPermuted(a: seq<Request>, b: seq<Request>, irps: map<nat, Irp>, f: seq<Finish>, outstanding: int)
    requires IrpBooks(a, irps, f, outstanding) && multiset(a) == multiset(b)
    ensures IrpBooks(b, irps, f, outstanding)
  {
    SumPermuted(a, b, Segments);
    forall r | r in b ensures r.irp in irps {
      assert r in multiset(a);
    }
    forall i | i in irps ensures IrpRight(irps[i], i, Sum(b, CountOf(i)), Sum(b, BytesOf(i)), f) {
      SumPermuted(a, b, CountOf(i));
      SumPermuted(a, b, BytesOf(i));
    }
  }

  /** Moving requests between lists leaves every account right. */
  lemma BooksKept(d: Dev, e: Dev)
    requires Conserved(d) && IrpsRight(d) && SameBooks(d, e)
    ensures Conserved(e) && IrpsRight(e)
  {
    IrpBooksPermuted(d.All(), e.All(), d.irps, d.finished, d.curOutstanding);
  }

  lemma OnlyHere(m: multiset<Request>, x: Request, rest: multiset<Request>)
    requires Unique(m) && m == multiset{x} + rest
    ensures x !in rest
  {
    assert m[x] == 1 + rest[x];
  }

  lemma FourLists(a: seq<Request>, b: seq<Request>, c: seq<Request>, e: seq<Request>)
    ensures multiset(a + b + c + e) == multiset(a) + multiset(b) + multiset(c) + multiset(e)
    ensures forall r :: r in a || r in b || r in c || r in e <==> r in multiset(a + b + c + e)
  {
  }

  /** What is on the list `q'` was on the list `q`, except that `x` may be there if it is `expected`. */
  ghost predicate From(q': seq<Request>, q: seq<Request>, x: Request, expected: bool) {
    forall r :: r in q' ==> if r == x then expected else r in q
  }

  lemma StateMoved(m: multiset<Request>, state: States, q': seq<Request>, q: seq<Request>, x: Request, v: SfrState,
                   s: SfrState)
    requires Unique(m) && x in m && (forall r :: r in q ==> r in m)
    requires StateOf(state, q, s) && From(q', q, x, v == s)
    ensures StateOf(state[x.id := v], q', s)
  {
  }

  /** Rearranging the lists and giving `x` the state of its new list keeps them right. */
  lemma Rearranged(q: seq<Request>, i: seq<Request>, p: seq<Request>, n: seq<Request>,
                   q': seq<Request>, i': seq<Request>, p': seq<Request>, n': seq<Request>,
                   state: States, x: Request, v: SfrState)
    requires Lists(q, i, p, n, state)
    requires multiset(q' + i' + p' + n') == multiset(q + i + p + n)
    requires x in multiset(q + i + p + n)
    requires From(q', q, x, v == Queued) && From(i', i, x, v == Submitted)
    requires From(p', p, x, v == Submitted) && From(n', n, x, v == Processed)
    ensures Lists(q', i', p', n', state[x.id := v])
  {
    var m := multiset(q + i + p + n);
    FourLists(q, i, p, n);
    StateMoved(m, state, q', q, x, v, Queued);
    StateMoved(m, state, i', i, x, v, Submitted);
    StateMoved(m, state, p', p, x, v, Submitted);
    StateMoved(m, state, n', n, x, v, Processed);
  }

  /** Moving `x` from the head of the schedule to the requests in flight. */
  lemma MoveToInflight(x: Request, q: seq<Request>, i: seq<Request>, p: seq<Request>, n: seq<Request>, state: States)
    requires Lists([x] + q, i, p, n, state)
    ensures Lists(q, i + [x], p, n, state[x.id := Submitted])
    ensures multiset(q + (i + [x]) + p + n) == multiset([x] + q + i + p + n)
    ensures x.id in state && state[x.id] == Queued
  {
    FourLists([x] + q, i, p, n);
    FourLists(q, i + [x], p, n);
    OnlyHere(multiset([x] + q + i + p + n), x, multiset(q) + multiset(i) + multiset(p) + multiset(n));
    assert x in [x] + q;
    Rearranged([x] + q, i, p, n, q, i + [x], p, n, state, x, Submitted);
  }

  lemma BoundedSame(a: seq<Request>, b: seq<Request>)
    requires multiset(a) == multiset(b) && Bounded(a)
    ensures Bounded(b)
  {
    forall r | r in b ensures 1 <= r.segments <= MAX_SEGMENTS {
      assert r in multiset(a);
    }
  }

  lemma {:induction false} StartOnePlaces(d: Dev)
    requires Places(d) && RingReady(d) && d.sched.Queued() != []
    ensures Places(StartOne(d)) && SameBooks(d, StartOne(d))
    ensures var x := Dequeue(d.sched).0; x.id in d.state && d.state[x.id] == Queued
  {
    var (x, t) := Dequeue(d.sched);
    DequeueHead(d.sched);
    DequeueSweeps(d.sched);
    MoveToInflight(x, t.Queued(), d.inflight, d.replay, d.done, d.state);
    BoundedSame(d.All(), StartOne(d).All());
  }

  lemma StartOneRing(d: Dev)
    requires OnRing(d) && Granted(d) && d.live && !d.ring.Full() && d.sched.Queued() != []
    ensures OnRing(StartOne(d)) && Granted(StartOne(d))
  {
    var x := Dequeue(d.sched).0;
    PutRequestAppends(d.ring, x);
    SumConcat(d.inflight, [x], Segments);
    SumOne(x, Segments);
  }

  lemma {:induction false} FlipKeeps(d: Dev)
    requires Core(d)
    ensures var f := d.(sched := Flip(d.sched));
      Core(f) && SameBooks(d, f) && f.sched.Queued() == d.sched.Queued()
  {
    assert Flip(d.sched).Queued() == d.sched.Queued();
  }

  lemma PushKeeps(d: Dev)
    requires Core(d) && d.live
    ensures Core(Push(d)) && SameBooks(d, Push(d)) && Published(Push(d))
  {
    PushRequestsPublishes(d.ring);
  }

  /** The fields that starting requests may change. */
  ghost predicate OnlyStarted(d: Dev, e: Dev) {
    e == d.(sched := e.sched, nrScheduled := e.nrScheduled, inflight := e.inflight, nrInflight := e.nrInflight,
            state := e.state, ring := e.ring, grants := e.grants)
  }

  /** start_requests stops only when nothing is queued, the ring is full or the cache
      refuses the next request. */
  ghost predicate Exhausted(d: Dev, extra: nat) {
    d.sched.Queued() == [] || d.ring.Full() || (d.sched.cur != [] && !CanGrant(d, d.sched.cur[0], extra))
  }

  /** One turn of the loop of start_requests. */
  lemma {:induction false} StartTurn(d: Dev)
    requires Core(d) && d.live && !d.ring.Full() && d.sched.Queued() != []
    ensures var e := StartOne(d.(sched := Flip(d.sched)));
      Core(e) && SameBooks(d, e) && OnlyStarted(d, e) && |e.sched.Queued()| < |d.sched.Queued()|
  {
    FlipKeeps(d);
    var f := d.(sched := Flip(d.sched));
    StartOnePlaces(f);
    StartOneRing(f);
    DequeueHead(f.sched);
  }

  lemma StartStops(d: Dev, f: Dev, extra: nat)
    requires Core(d) && d.live && f == d.(sched := Flip(d.sched))
    requires f.sched.cur == [] || !CanGrant(f, f.sched.cur[0], extra)
    ensures Core(Push(f)) && Published(Push(f)) && SameBooks(d, Push(f)) && OnlyStarted(d, Push(f))
    ensures Exhausted(Push(f), extra)
  {
    FlipKeeps(d);
    PushKeeps(f);
  }

  lemma {:induction false} StartAllKeeps(d: Dev, extra: nat)
    requires Core(d) && d.live
    ensures var e := StartAll(d, extra);
      Core(e) && Published(e) && SameBooks(d, e) && OnlyStarted(d, e) && Exhausted(e, extra)
    decreases |d.sched.Queued()|
  {
    hide Places, Served, Granted, SameBooks, StartOne, CanGrant;
    if d.ring.Full() {
      PushKeeps(d);
    } else {
      var f := d.(sched := Flip(d.sched));
      if f.sched.cur == [] || !CanGrant(f, f.sched.cur[0], extra) {
        StartStops(d, f, extra);
      } else {
        StartTurn(d);
        StartAllKeeps(StartOne(f), extra);
        SameBooksTransitive(d, StartOne(f), StartAll(d, extra));
      }
    }
  }

  /** With nothing in flight and nothing to replay, the reserve covers any request. */
  lemma ExhaustedMoves(d: Dev, extra: nat)
    requires Core(d) && d.live && d.replay == [] && Exhausted(d, extra)
    ensures Busy(d)
  {
    if d.sched.cur != [] {
      var x := d.sched.cur[0];
      assert x in d.sched.Queued();
      assert x in d.All();
    }
  }

  lemma {:induction false} StartRequestsKeeps(d: Dev, extra: nat)
    requires Core(d) && Published(d) && Controlled(d)
    ensures var e := StartRequests(d, extra);
      Core(e) && Published(e) && Controlled(e) && Moving(e) && SameBooks(d, e) && OnlyStarted(d, e)
  {
    if d.pauseCount == 0 {
      StartAllKeeps(d, extra);
      ExhaustedMoves(StartAll(d, extra), extra);
    }
  }

  /** Adding a request that is on no list to the schedule. */
  lemma AddToQueue(r: Request, q: seq<Request>, q': seq<Request>, i: seq<Request>, p: seq<Request>, n: seq<Request>,
                   state: States)
    requires Lists(q, i, p, n, state) && multiset(q') == multiset(q) + multiset{r}
    requires forall x :: x in multiset(q + i + p + n) ==> x.id != r.id
    ensures Lists(q', i, p, n, state[r.id := Queued])
    ensures multiset(q' + i + p + n) == multiset(q + i + p + n) + multiset{r}
  {
    FourLists(q, i, p, n);
    FourLists(q', i, p, n);
    var m := multiset(q + i + p + n);
    UniqueAdd(m, r);
    StateAdded(m, state, q, q', r);
    StateElsewhere(m, state, i, r, Submitted);
    StateElsewhere(m, state, p, r, Submitted);
    StateElsewhere(m, state, n, r, Processed);
  }

  lemma UniqueAdd(m: multiset<Request>, r: Request)
    requires Unique(m) && forall x :: x in m ==> x.id != r.id
    ensures Unique(m + multiset{r})
  {
    assert r !in m;
  }

  lemma StateAdded(m: multiset<Request>, state: States, q: seq<Request>, q': seq<Request>, r: Request)
    requires multiset(q') == multiset(q) + multiset{r} && StateOf(state, q, Queued)
    requires (forall x :: x in q ==> x in m) && (forall x :: x in m ==> x.id != r.id)
    ensures StateOf(state[r.id := Queued], q', Queued)
  {
    assert forall x :: x in q' <==> x in multiset(q');
  }

  lemma StateElsewhere(m: multiset<Request>, state: States, q: seq<Request>, r: Request, s: SfrState)
    requires StateOf(state, q, s) && (forall x :: x in q ==> x in m) && (forall x :: x in m ==> x.id != r.id)
    ensures StateOf(state[r.id := Queued], q, s)
  {
  }

  lemma EnqueueOneKeeps(d: Dev, r: Request)
    requires Core(d) && (forall x :: x in multiset(d.All()) ==> x.id != r.id) && 1 <= r.segments <= MAX_SEGMENTS
    ensures Core(EnqueueOne(d, r))
    ensures multiset(EnqueueOne(d, r).All()) == multiset(d.All()) + multiset{r}
  {
    var e := EnqueueOne(d, r);
    EnqueueSweeps(d.sched, r);
    EnqueueContents(d.sched, r);
    AddToQueue(r, d.sched.Queued(), e.sched.Queued(), d.inflight, d.replay, d.done, d.state);
    EnqueueLength(d.sched, r);
    forall x | x in e.All() ensures 1 <= x.segments <= MAX_SEGMENTS {
      assert x in multiset(e.All());
    }
  }
}
