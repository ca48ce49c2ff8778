/** What holds in every state of every run of the datapath. */
module DatapathRuns {
  import opened RingIndex
  import opened SharedRing
  import opened Elevator
  import opened Measures
  import opened Datapath
  import opened DatapathSafety
  import opened DatapathSteps

  /** A device just added: paused, switched off, not connected. */
  function Fresh(maxRingPages: nat): Dev {
    Dev(Schedule([], []), 0, [], 0, [], 0, [], map[], map[],
        false, false, Init(1), multiset{}, maxRingPages, 0, 0,
        1, false, false, Idle, map[], 0, multiset{}, [])
  }

  /** One step.  Nothing is assumed of a step at which an assertion of Asserts fails; a step at which
      grant_ring's assertion fails stops the machine and ends the run. */
  ghost predicate Step(d: Dev, a: Action, e: Dev) {
    Enabled(d, a) && RingCovered(d, a) && (Asserts(d, a) ==> e == Do(d, a))
  }

  /** A run: the states it visits and the steps between them. */
  ghost predicate IsRun(s: seq<Dev>, a: seq<Action>) {
    && |s| == |a| + 1
    && s[0] == Fresh(s[0].maxRingPages)
    && forall i :: 0 <= i < |a| ==> Step(s[i], a[i], s[i + 1])
  }

  lemma FreshInv(maxRingPages: nat)
    ensures Inv(Fresh(maxRingPages))
  {
    hide Served, RingReady, IrpRight;
    assert Fresh(maxRingPages).All() == [];
  }

  /** In every run, every state satisfies the invariants, and no assertion but grant_ring's fires. */
  lemma {:induction false} EveryRun(s: seq<Dev>, a: seq<Action>, i: nat)
    requires IsRun(s, a) && i < |s|
    ensures Inv(s[i]) && (i < |a| ==> Asserts(s[i], a[i]) && s[i + 1] == Do(s[i], a[i]))
  {
    hide Inv, Enabled, Asserts, Do;
    if i == 0 {
      FreshInv(s[0].maxRingPages);
    } else {
      EveryRun(s, a, i - 1);
      assert Step(s[i - 1], a[i - 1], s[i]);
      StepKeepsInv(s[i - 1], a[i - 1]);
    }
    if i < |a| {
      assert Step(s[i], a[i], s[i + 1]);
      NoAssertionFires(s[i], a[i]);
    }
  }

  lemma SumOfSegments(d: Dev)
    requires Inv(d) && d.inflight == []
    ensures d.grants - d.ringGrants == Sum(d.replay, Segments) && d.ringGrants <= d.maxRingPages
  {
    hide Places, OnRing, IrpsRight, Conserved, Controlled;
  }

  /** The next step of a run, whatever it is: every assertion of Asserts holds.  If it is one that calls
      grant_ring, whether the connect then succeeds or not, the assertion there holds if and only if the
      segments of the requests that wait for replay and the pages of the ring fit what the cache supplies.
      If nothing waits for replay it always does. */
  lemma EveryAssertion(s: seq<Dev>, a: seq<Action>, b: Action)
    requires IsRun(s, a) && Enabled(s[|a|], b)
    ensures var d := s[|a|];
      && Asserts(d, b)
      && (GrantsRing(b) ==>
            && (RingCovered(d, b) <==> Sum(d.replay, Segments) + b.pages <= d.Reserve() + b.extra)
            && (d.replay == [] ==> RingCovered(d, b)))
  {
    var d := s[|a|];
    EveryRun(s, a, |a|);
    hide Inv, Asserts, Do, Enabled, IsRun;
    NoAssertionFires(d, b);
    if GrantsRing(b) {
      QuietKeeps(d, b);
      SumOfSegments(d);
      assert d.replay == [] ==> PagesLegal(d, b) by { PagesOf(d, b); }
    }
  }

  predicate PagesLegal(d: Dev, b: Action) {
    GrantsRing(b) ==> b.pages <= d.maxRingPages
  }

  lemma PagesOf(d: Dev, b: Action)
    requires Enabled(d, b)
    ensures PagesLegal(d, b)
  {
  }

  /** A run goes on with any enabled step at which grant_ring's assertion holds. */
  lemma Extend(s: seq<Dev>, a: seq<Action>, b: Action)
    requires IsRun(s, a) && Enabled(s[|a|], b) && RingCovered(s[|a|], b)
    ensures Asserts(s[|a|], b) && IsRun(s + [Do(s[|a|], b)], a + [b])
  {
    EveryAssertion(s, a, b);
    hide Inv, Asserts, Do, Enabled;
    var t, c := s + [Do(s[|a|], b)], a + [b];
    forall i | 0 <= i < |c| ensures Step(t[i], c[i], t[i + 1]) {
      if i < |a| {
        assert Step(s[i], a[i], s[i + 1]);
      }
    }
  }

  // ============================================================ consequences

  function Occurrences(b: bool): nat {
    if b then 1 else 0
  }

  /** Every request that was accepted is on exactly one list, in the state of that list,
      or has been finished; none is lost and none is finished twice. */
  lemma {:induction false} OnePlaceEach(s: seq<Dev>, a: seq<Action>, i: nat, r: Request)
    requires IsRun(s, a) && i < |s|
    ensures var d := s[i];
      && d.accepted[r] == Occurrences(r in d.sched.Queued()) + Occurrences(r in d.inflight)
                          + Occurrences(r in d.replay) + Occurrences(r in d.done) + Retired(d.finished)[r]
      && (r in d.sched.Queued() ==> r.id in d.state && d.state[r.id] == Queued)
      && (r in d.inflight || r in d.replay ==> r.id in d.state && d.state[r.id] == Submitted)
      && (r in d.done ==> r.id in d.state && d.state[r.id] == Processed)
      && d.nrScheduled == |d.sched.Queued()| && d.nrInflight == |d.inflight| && d.nrReplay == |d.replay|
  {
    EveryRun(s, a, i);
    var d := s[i];
    hide OnRing, Granted, Controlled, IrpsRight, Sweeping, Bounded, Moving, Published;
    var q := d.sched.Queued();
    FourLists(q, d.inflight, d.replay, d.done);
    assert multiset(d.All())[r] ==
      multiset(q)[r] + multiset(d.inflight)[r] + multiset(d.replay)[r] + multiset(d.done)[r];
  }

  /** Whenever the device is connected, unpaused and the ring lock is free, queued requests
      imply requests in flight, and these are published to the back end. */
  lemma NoStall(s: seq<Dev>, a: seq<Action>, i: nat)
    requires IsRun(s, a) && i < |s|
    ensures s[i].pauseCount == 0 && s[i].nrScheduled > 0 ==> s[i].nrInflight > 0
    ensures s[i].live ==> s[i].ring.reqProd == s[i].ring.reqPvt
  {
    EveryRun(s, a, i);
    hide OnRing, Granted, Controlled, IrpsRight, Sweeping, Bounded, Lists, Conserved;
  }

  /** While connected the distance between the private producer and the response consumer
      is the number of requests in flight and never exceeds the ring. */
  lemma RingWindow(s: seq<Dev>, a: seq<Action>, i: nat)
    requires IsRun(s, a) && i < |s| && s[i].live
    ensures s[i].ring.Outstanding() == s[i].nrInflight <= s[i].ring.n
  {
    EveryRun(s, a, i);
    hide Granted, Controlled, IrpsRight, Sweeping, Bounded, Lists, Conserved;
  }

  /** An IRP is completed once, when its last request has been finished; it succeeds exactly
      when every one of its requests came back OKAY, and then Information is the number of sectors times
      the sector size. */
  lemma {:induction false} IrpCompletedOnce(s: seq<Dev>, a: seq<Action>, i: nat, irp: nat)
    requires IsRun(s, a) && i < |s| && irp in s[i].irps
    ensures var d := s[i]; var p := d.irps[irp];
      && (p.status == Pending <==> exists r :: r in d.All() && r.irp == irp)
      && p.completions == (if p.status == Pending then 0 else 1)
      && (p.status != Pending ==> (p.status == Success <==> AllOkay(d.finished, irp)))
      && (p.status == Success ==> p.information == p.size.sectors * p.size.sectorSize == BytesDone(d.finished, irp))
  {
    EveryRun(s, a, i);
    hide OnRing, Granted, Controlled, Places, Conserved, Moving, Published, Dev.All;
    var d := s[i];
    var c := Sum(d.All(), CountOf(irp));
    if c == 0 {
      SumZero(d.All(), irp);
    } else if forall r :: r in d.All() ==> r.irp != irp {
      SumOfNone(d.All(), irp);
      assert false;
    }
  }

  /** Starting requests touches the schedule, the ring, the grants and the states, and nothing else. */
  ghost predicate Starts(d: Dev, e: Dev) {
    e == d.(sched := e.sched, nrScheduled := e.nrScheduled, inflight := e.inflight, nrInflight := e.nrInflight,
            ring := e.ring, grants := e.grants, state := e.state)
  }

  lemma {:induction false} StartAllFrame(d: Dev, extra: nat)
    requires RingReady(d)
    ensures Starts(d, StartAll(d, extra))
    decreases |d.sched.Queued()|
  {
    hide RingSize, CanGrant;
    var f := d.(sched := Flip(d.sched));
    if !d.ring.Full() && f.sched.cur != [] && CanGrant(f, f.sched.cur[0], extra) {
      StartAllFrame(StartOne(f), extra);
    }
  }

  lemma {:induction false} AbortAllFrame(d: Dev)
    ensures var e := AbortAll(d);
      e == d.(replay := [], nrReplay := e.nrReplay, grants := e.grants, result := e.result, state := e.state,
              done := e.done)
    decreases |d.replay|
  {
    if d.replay != [] {
      AbortAllFrame(AbortOne(d));
    }
  }

  lemma StartRequestsFrame(d: Dev, extra: nat)
    requires d.ringPresent ==> RingReady(d)
    ensures Starts(d, StartRequests(d, extra))
  {
    if d.pauseCount == 0 && d.ringPresent {
      StartAllFrame(d, extra);
    }
  }

  lemma UnpauseFrame(d: Dev, extra: nat)
    requires d.ringPresent ==> RingReady(d)
    ensures Starts(d.(pauseCount := d.pauseCount - 1), Unpause(d, extra))
  {
    StartRequestsFrame(d.(pauseCount := d.pauseCount - 1), extra);
  }

  lemma ReconnectFrame(d: Dev, n: int, pages: nat, powered: bool, suspended: bool, extra: nat)
    requires RingSize(n) && ReconnectAsserts(d, n, pages)
    ensures var f := Connect(d, n, pages).(powered := powered, suspended := suspended, pauseCount := d.pauseCount - 1);
      && Starts(f, Unpause(Connect(d, n, pages).(powered := powered, suspended := suspended), extra))
      && f.irps == d.irps && f.done == d.done && f.result == d.result && f.finished == d.finished
      && f.accepted == d.accepted && f.held == multiset{}
  {
    hide ReconnectAsserts, StartRequests;
    ReplayAllFrame(FreshRing(d, n, pages));
    ConnectFrame(d, n, pages);
    UnpauseFrame(Connect(d, n, pages).(powered := powered, suspended := suspended), extra);
  }

  /** No step changes what an IRP asked for. */
  lemma {:induction false} SizeStep(d: Dev, a: Action, irp: nat)
    requires Asserts(d, a) && irp in d.irps && (a.ASubmit? ==> a.irp != irp)
    ensures irp in Do(d, a).irps && Do(d, a).irps[irp].size == d.irps[irp].size
  {
    hide StartRequests, Connect, Unpause, AbortAll, DpcTake, EnqueueAsserts, StartRequestsAsserts, UnpauseAsserts,
      ReconnectAsserts;
    match a
    case ASubmit(i, size, q, extra) => StartRequestsFrame(EnqueueAll(Accept(d, i, size, q), q), extra);
    case ADpcTake(extra) => TakeFrame(d, extra);
    case APowerUp(n, pages, extra) => ReconnectFrame(d, n, pages, true, Connect(d, n, pages).suspended, extra);
    case AResume(n, pages, extra) => ReconnectFrame(d, n, pages, Connect(d, n, pages).powered, false, extra);
    case AResumeOff => UnpauseFrame(d.(suspended := false), 0);
    case AAbort => AbortAllFrame(d);
    case _ =>
  }

  lemma TakeFrame(d: Dev, extra: nat)
    requires Asserts(d, ADpcTake(extra))
    ensures DpcTake(d, extra).irps == d.irps && DpcTake(d, extra).pauseCount == d.pauseCount
  {
  }

  lemma {:induction false} SizeSet(d: Dev, a: Action)
    requires a.ASubmit? && Asserts(d, a)
    ensures a.irp in Do(d, a).irps && Do(d, a).irps[a.irp].size == a.size
  {
    hide StartRequests, EnqueueAsserts, StartRequestsAsserts;
    StartRequestsFrame(EnqueueAll(Accept(d, a.irp, a.size, a.q), a.q), a.extra);
  }

  lemma {:induction false} SizeKept(s: seq<Dev>, a: seq<Action>, j: nat, i: nat)
    requires IsRun(s, a) && j < i < |s| && a[j].ASubmit?
    ensures a[j].irp in s[i].irps && s[i].irps[a[j].irp].size == a[j].size
    decreases i
  {
    hide Inv, Asserts, Do;
    EveryRun(s, a, i - 1);
    if j == i - 1 {
      SizeSet(s[j], a[j]);
    } else {
      SizeKept(s, a, j, i - 1);
      assert Step(s[i - 1], a[i - 1], s[i]);
      SizeStep(s[i - 1], a[i - 1], a[j].irp);
    }
  }

  /** An IRP that was submitted for `sectors` sectors and has succeeded reports sectors times sector size, and has
      transferred as much. */
  lemma SrbInformation(s: seq<Dev>, a: seq<Action>, j: nat, i: nat)
    requires IsRun(s, a) && j < i < |s| && a[j].ASubmit?
    ensures var irp, size := a[j].irp, a[j].size;
      && irp in s[i].irps
      && (s[i].irps[irp].status == Success ==>
            s[i].irps[irp].information == size.sectors * size.sectorSize == BytesDone(s[i].finished, irp))
  {
    SizeKept(s, a, j, i);
    hide IsRun;
    IrpCompletedOnce(s, a, i, a[j].irp);
  }

  /** The pause count is positive whenever the device is suspended, switched off, not
      connected or holds requests to replay. */
  lemma PausedWhenUnusable(s: seq<Dev>, a: seq<Action>, i: nat)
    requires IsRun(s, a) && i < |s|
    ensures s[i].suspended || !s[i].powered || !s[i].live || s[i].nrReplay > 0 ==> s[i].pauseCount > 0
  {
    EveryRun(s, a, i);
    hide OnRing, Granted, IrpsRight, Sweeping, Bounded, Lists, Conserved;
  }

  predicate Unpauses(a: Action) {
    a.APowerUp? || a.AResume? || a.AResumeOff?
  }

  predicate Pauses(a: Action) {
    a.APowerDown? || a.ASuspend? || a.ADehibernate?
  }

  /** Pauses less unpauses. */
  function Balance(a: seq<Action>): int {
    if a == [] then 0
    else
      var l := a[|a| - 1];
      Balance(a[..|a| - 1]) + (if Pauses(l) then 1 else if Unpauses(l) then -1 else 0)
  }

  lemma {:induction false} PauseStep(d: Dev, a: Action)
    requires Asserts(d, a)
    ensures Do(d, a).pauseCount == d.pauseCount + Balance([a])
  {
    assert [a][..0] == [];
    assert Balance([a]) == if Pauses(a) then 1 else if Unpauses(a) then -1 else 0;
    hide StartRequests, Connect, Unpause, DpcTake, EnqueueAsserts, StartRequestsAsserts, UnpauseAsserts,
      ReconnectAsserts, CompleteInIrp, Balance;
    match a
    case ASubmit(i, size, q, extra) => StartRequestsFrame(EnqueueAll(Accept(d, i, size, q), q), extra);
    case ADpcTake(extra) => TakeFrame(d, extra);
    case APowerUp(n, pages, extra) => ReconnectFrame(d, n, pages, true, Connect(d, n, pages).suspended, extra);
    case AResume(n, pages, extra) => ReconnectFrame(d, n, pages, Connect(d, n, pages).powered, false, extra);
    case AResumeOff => UnpauseFrame(d.(suspended := false), 0);
    case AAbort => AbortAllFrame(d);
    case _ =>
  }

  /** A new device is paused once; every pause counts one more, every unpause one less, and nothing else counts. */
  lemma {:induction false} PauseBalance(s: seq<Dev>, a: seq<Action>, i: nat)
    requires IsRun(s, a) && i < |s|
    ensures s[i].pauseCount == 1 + Balance(a[..i])
  {
    hide Inv, Asserts, Do, Enabled;
    if i > 0 {
      PauseBalance(s, a, i - 1);
      EveryRun(s, a, i - 1);
      PauseStep(s[i - 1], a[i - 1]);
      assert a[..i][..i - 1] == a[..i - 1] && [a[i - 1]][..0] == [];
    }
  }

  ghost predicate Quiescent(d: Dev) {
    d.pauseCount > 0 && d.nrInflight == 0
  }

  /** A step that does not unpause a quiescent device puts nothing on the ring. */
  lemma {:induction false} QuiescentStep(d: Dev, a: Action)
    requires Inv(d) && Enabled(d, a) && Asserts(d, a) && Quiescent(d) && !Unpauses(a)
    ensures var e := Do(d, a); Quiescent(e) && e.ring.reqPvt == d.ring.reqPvt && e.ring.reqProd == d.ring.reqProd
  {
    hide Granted, IrpsRight, Sweeping, Bounded, Conserved, Unique, Published, Moving, Controlled, OnRing;
    if a.AAbort? {
      AbortAllKeeps(d) by { CoreOf(d); }
    }
  }

  lemma InvCounters(d: Dev)
    requires Inv(d)
    ensures d.nrInflight == |d.inflight|
  {
    hide OnRing, Granted, IrpsRight, Conserved, Controlled, Lists, Sweeping;
  }

  /** Once paused with nothing in flight, the device stays so, and its request indices stay
      put, for as long as no step unpauses it. */
  lemma {:induction false} QuiescenceIsStable(s: seq<Dev>, a: seq<Action>, i: nat, j: nat)
    requires IsRun(s, a) && i <= j < |s| && Quiescent(s[i])
    requires forall k :: i <= k < j ==> !Unpauses(a[k])
    ensures Quiescent(s[j]) && s[j].inflight == []
    ensures s[j].ring.reqPvt == s[i].ring.reqPvt
    decreases j - i
  {
    hide Inv, Do, Enabled, Asserts;
    EveryRun(s, a, j);
    InvCounters(s[j]);
    if i < j {
      QuiescenceIsStable(s, a, i, j - 1);
      EveryRun(s, a, j - 1);
      assert Step(s[j - 1], a[j - 1], s[j]);
      QuiescentStep(s[j - 1], a[j - 1]);
    }
  }

  /** Rings are set up and torn down only in quiescent states. */
  lemma RingResetIsQuiet(s: seq<Dev>, a: seq<Action>, i: nat)
    requires IsRun(s, a) && i < |a|
    requires a[i].AClose? || a[i].AConnectFails? || GrantsRing(a[i])
    ensures Quiescent(s[i])
  {
    EveryRun(s, a, i);
    assert Step(s[i], a[i], s[i + 1]);
    hide Do, Asserts;
    QuietKeeps(s[i], a[i]);
    Counters(s[i]);
  }
}
