/** What happens to the schedule while a paused device drains (scsifilt/rings.c).

    pause_datapath waits until nothing is in flight.  The DPC does not look at the
    pause count before it starts the next request, so the requests that are queued
    at the pause go out before the drain is over.
  */
module DatapathDrain {
  import opened RingIndex
  import opened SharedRing
  import opened Elevator
  import opened Measures
  import opened Datapath
  import opened DatapathSafety
  import opened DatapathSteps
  import opened DatapathRuns

  /** The request that the DPC would start after taking the next response. */
  predicate NextGrantable(d: Dev, extra: nat)
    requires RingReady(d) && TakeResponse(d.ring).0.Rsp? && Flip(d.sched).cur != []
  {
    d.grants - TakeResponse(d.ring).0.rsp.sfr.segments + Flip(d.sched).cur[0].segments <= d.Reserve() + extra
  }

  /** A step of the DPC, paused or not, puts a request on the ring if and only if one is queued and the
      first can be granted with what the response gives back. */
  lemma DpcStartsIff(d: Dev, extra: nat)
    requires Inv(d) && Enabled(d, ADpcTake(extra))
    ensures Asserts(d, ADpcTake(extra))
    ensures Do(d, ADpcTake(extra)).ring.reqPvt != d.ring.reqPvt <==>
            d.sched.Queued() != [] && NextGrantable(d, extra)
  {
    hide Places, OnRing, Granted, IrpsRight, Conserved, Controlled, Moving;
    TakeAsserts(d, extra);
    hide Asserts;
    var e := Retire(d);
    assert Flip(d.sched).Queued() == d.sched.Queued();
  }

  // ------------------------------------------------------------ a whole drain

  /** Steps that neither unpause the device nor take it away from its back end. */
  predicate Drains(a: Action) {
    !Unpauses(a) && !a.ASuspend? && !a.ADehibernate?
  }

  function Arrivals(a: Action): nat {
    if a.ASubmit? then |a.q| else 0
  }

  /** Requests put on the ring so far, up to a constant, and those that wait for it. */
  function Due(d: Dev): int {
    d.ring.reqPvt + |d.sched.Queued()|
  }

  ghost predicate Moves(x: int, k: int, y: int) {
    (x + k) % WRAP == y % WRAP
  }

  lemma MovesOn(x: int, b: int, y: int, c: int, z: int)
    requires Moves(x, b, y) && Moves(y, c, z)
    ensures Moves(x, b + c, z)
  {
  }

  lemma {:induction false} EnqueueAllLength(d: Dev, q: seq<Request>)
    ensures |EnqueueAll(d, q).sched.Queued()| == |d.sched.Queued()| + |q|
    decreases |q|
  {
    if q != [] {
      EnqueueLength(d.sched, q[0]);
      EnqueueAllLength(EnqueueOne(d, q[0]), q[1..]);
    }
  }

  lemma StartNextDue(d: Dev, extra: nat)
    requires RingReady(d)
    ensures Moves(Due(d), 0, Due(StartNext(d, extra)))
  {
    var f := d.(sched := Flip(d.sched));
    assert f.sched.Queued() == d.sched.Queued();
    if f.sched.cur != [] && CanGrant(f, f.sched.cur[0], extra) {
      DequeueHead(f.sched);
    }
  }

  lemma {:induction false} TakeDrains(d: Dev, extra: nat)
    requires Inv(d) && Enabled(d, ADpcTake(extra)) && Asserts(d, ADpcTake(extra))
    ensures var e := DpcTake(d, extra); Busy(e) && e.pauseCount == d.pauseCount && Moves(Due(d), 0, Due(e))
  {
    hide Places, Granted, IrpsRight, Conserved, Moving, Served, SameBooks;
    ResponseIsInflight(d);
    RetirePlaces(d);
    RetireRing(d);
    var e := Retire(d);
    assert Published(e) && Core(e) && e.live && e.replay == [];
    hide Retire, StartNext, Due, Moves, Published;
    StartNextKeeps(e, extra);
    StartNextDue(e, extra);
    RetireDue(d);
  }

  lemma RetireDue(d: Dev)
    requires Retirable(d)
    ensures Due(Retire(d)) == Due(d)
  {
  }

  lemma {:induction false} SubmitDrains(d: Dev, irp: nat, size: Extent, q: seq<Request>, extra: nat)
    requires d.pauseCount > 0 && (d.ringPresent ==> RingReady(d))
    ensures var e := Submit(d, irp, size, q, extra);
      e.inflight == d.inflight && e.pauseCount == d.pauseCount && Due(e) == Due(d) + |q|
  {
    EnqueueAllLength(Accept(d, irp, size, q), q);
  }

  /** Steps that leave the lists and the request producer alone. */
  predicate Harmless(a: Action) {
    || a.ADpcEnter? || a.ADpcAgain? || a.ADpcExit? || a.AFinish?
    || a.AConsume? || a.AAnswer? || a.APublish? || a.APowerDown?
  }

  lemma {:induction false} HarmlessStep(d: Dev, a: Action)
    requires Harmless(a) && Asserts(d, a) && d.pauseCount > 0
    ensures var e := Do(d, a);
      e.pauseCount > 0 && e.inflight == d.inflight && e.sched == d.sched && e.ring.reqPvt == d.ring.reqPvt
  {
    hide RingReady, CompleteInIrp, Without;
  }

  lemma {:induction false} AbortDrains(d: Dev)
    requires Inv(d)
    ensures var e := AbortAll(d);
      e.pauseCount == d.pauseCount && e.inflight == d.inflight && e.sched == d.sched && e.ring == d.ring
  {
    CoreOf(d);
    hide Inv, Core, SameBooks;
    AbortAllKeeps(d);
  }

  lemma SameDue(d: Dev, e: Dev)
    requires e.inflight == d.inflight != [] && e.sched == d.sched && e.ring.reqPvt == d.ring.reqPvt
    ensures Busy(e) && Moves(Due(d), 0, Due(e))
  {
  }

  lemma {:induction false} DrainStep(d: Dev, a: Action)
    requires Inv(d) && Enabled(d, a) && Asserts(d, a) && d.pauseCount > 0 && d.inflight != [] && Drains(a)
    ensures var e := Do(d, a); e.pauseCount > 0 && Busy(e) && Moves(Due(d), Arrivals(a), Due(e))
  {
    hide Inv, Submit, DpcTake, AbortAll, Busy, Due;
    if a.AClose? || a.AConnectFails? || a.AConnectLost? {
      QuietKeeps(d, a);
      assert false;
    } else if a.ASubmit? {
      hide Moves;
      SubmitDue(d, a);
    } else if a.ADpcTake? {
      hide Moves;
      TakeDrains(d, a.extra);
    } else if a.AAbort? {
      hide Moves;
      AbortDrains(d);
      SameDue(d, AbortAll(d));
    } else {
      hide Moves;
      HarmlessStep(d, a);
      hide Do;
      SameDue(d, Do(d, a));
    }
  }

  lemma {:induction false} SubmitDue(d: Dev, a: Action)
    requires a.ASubmit? && d.pauseCount > 0 && d.inflight != [] && (d.ringPresent ==> RingReady(d))
    ensures var e := Submit(d, a.irp, a.size, a.q, a.extra);
      e.pauseCount > 0 && Busy(e) && Moves(Due(d), Arrivals(a), Due(e))
  {
    hide Submit;
    SubmitDrains(d, a.irp, a.size, a.q, a.extra);
  }

  function TotalArrivals(a: seq<Action>): nat {
    if a == [] then 0 else TotalArrivals(a[..|a| - 1]) + Arrivals(a[|a| - 1])
  }

  lemma InflightCounted(d: Dev)
    requires Inv(d)
    ensures d.nrInflight == |d.inflight|
  {
    Counters(d);
  }

  /** While a device that was paused with requests in flight drains, what is put on the ring comes out of the
      queue; when the last request has come back the queue is empty. */
  lemma {:induction false} DrainEmptiesQueue(s: seq<Dev>, a: seq<Action>, i: nat, j: nat)
    requires IsRun(s, a) && i <= j < |s| && s[i].pauseCount > 0 && s[i].nrInflight > 0
    requires forall k :: i <= k < j ==> Drains(a[k]) && s[k].nrInflight > 0
    ensures s[j].pauseCount > 0
    ensures Moves(Due(s[i]), TotalArrivals(a[i..j]), Due(s[j]))
    ensures s[j].nrInflight == 0 ==> s[j].sched.Queued() == []
    decreases j - i
  {
    hide Inv, Do, Enabled, Asserts, Due, Moves;
    DatapathRuns.EveryRun(s, a, j);
    InflightCounted(s[j]);
    if i < j {
      DrainEmptiesQueue(s, a, i, j - 1);
      DatapathRuns.EveryRun(s, a, j - 1);
      InflightCounted(s[j - 1]);
      assert Step(s[j - 1], a[j - 1], s[j]);
      DrainStep(s[j - 1], a[j - 1]);
      hide IsRun;
      var c := a[i..j];
      assert c[..|c| - 1] == a[i..j - 1] && c[|c| - 1] == a[j - 1];
      MovesOn(Due(s[i]), TotalArrivals(a[i..j - 1]), Due(s[j - 1]), Arrivals(a[j - 1]), Due(s[j]));
    } else {
      assert a[i..j] == [];
      MovesNowhere(s[i]);
    }
  }

  lemma MovesNowhere(d: Dev)
    ensures Moves(Due(d), 0, Due(d))
  {
  }

  /** A completed drain puts on the ring exactly what was queued at the pause and what arrived since: nothing
      if and only if the queue was empty and nothing arrived. */
  lemma DrainPutsQueue(s: seq<Dev>, a: seq<Action>, i: nat, j: nat)
    requires IsRun(s, a) && i <= j < |s| && s[i].pauseCount > 0 && s[i].nrInflight > 0 && s[j].nrInflight == 0
    requires forall k :: i <= k < j ==> Drains(a[k]) && s[k].nrInflight > 0
    requires |s[i].sched.Queued()| + TotalArrivals(a[i..j]) < WRAP
    ensures s[j].ring.reqPvt == Plus(s[i].ring.reqPvt, |s[i].sched.Queued()| + TotalArrivals(a[i..j]))
    ensures s[j].ring.reqPvt == s[i].ring.reqPvt <==> s[i].sched.Queued() == [] && TotalArrivals(a[i..j]) == 0
  {
    DrainEmptiesQueue(s, a, i, j);
    hide IsRun;
    PlusOf(s[i].ring.reqPvt, |s[i].sched.Queued()| + TotalArrivals(a[i..j]), s[j].ring.reqPvt);
  }

  lemma PlusOf(x: Index, k: Index, y: Index)
    requires (x + k) % WRAP == y % WRAP
    ensures y == Plus(x, k) && (y == x <==> k == 0)
  {
  }
}
