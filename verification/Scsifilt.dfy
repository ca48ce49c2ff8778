/** The ring side of scsifilt as an object whose methods update its fields in place
    (scsifilt/rings.c, scsifilt/datapath.c).

    Every method is proved against the corresponding function of Datapath; the
    theorems about whole runs are proved of those functions.
  */
module Scsifilt {
  import opened Blkif
  import opened RingIndex
  import opened SharedRing
  import opened Elevator
  import opened Measures
  import opened Datapath
  import opened DatapathSafety
  import opened DatapathSteps
  import opened DatapathResults
  import SrbSplit
  import opened SrbRequests

  /** What one turn of the loop of start_requests relies on. */
  lemma {:induction false} StartTurnOf(d: Dev)
    requires Core(d) && d.live && !d.ring.Full()
    ensures var f := d.(sched := Flip(d.sched));
      && RingReady(f)
      && (f.sched.cur != [] ==>
            && f.sched.cur[0].segments > 0 && InState(f, f.sched.cur[0], Queued)
            && Core(StartOne(f)) && StartOne(f).live
            && |StartOne(f).sched.Queued()| < |d.sched.Queued()|)
  {
    FlipKeeps(d);
    var f := d.(sched := Flip(d.sched));
    if f.sched.cur != [] {
      HeadQueued(d);
      StartTurn(d);
      assert f.sched.cur[0] in f.All();
    }
  }

  class Device {
    const maxRingPages: nat
    var sched: Schedule
    var nrScheduled: int
    var inflight: seq<Request>
    var nrInflight: int
    var replay: seq<Request>
    var nrReplay: int
    var done: seq<Request>
    var state: map<nat, SfrState>
    var result: map<nat, int>
    var ringPresent: bool
    var ring: Ring<Request, Response>
    var grants: int
    var ringGrants: nat
    var pauseCount: int
    var suspended: bool
    var powered: bool
    var dpc: Dpc
    var irps: map<nat, Irp>
    var curOutstanding: int
    // the back end: whether one serves the ring, and what it has consumed and not answered
    var live: bool
    var held: multiset<Request>
    // the history of the device
    ghost var accepted: multiset<Request>
    ghost var finished: seq<Finish>

    ghost function View(): Dev
      reads this
    {
      Dev(sched, nrScheduled, inflight, nrInflight, replay, nrReplay, done, state, result,
          ringPresent, live, ring, held, maxRingPages, grants, ringGrants,
          pauseCount, suspended, powered, dpc, irps, curOutstanding, accepted, finished)
    }

    constructor (maxRingPages: nat)
      ensures View() == Dev(Schedule([], []), 0, [], 0, [], 0, [], map[], map[],
                            false, false, Init(1), multiset{}, maxRingPages, 0, 0,
                            1, false, false, Idle, map[], 0, multiset{}, [])
    {
      this.maxRingPages := maxRingPages;
      sched, nrScheduled := Schedule([], []), 0;
      inflight, nrInflight := [], 0;
      replay, nrReplay := [], 0;
      done, state, result := [], map[], map[];
      ringPresent, ring, live, held := false, Init(1), false, multiset{};
      grants, ringGrants := 0, 0;
      pauseCount, suspended, powered, dpc := 1, false, false, Idle;
      irps, curOutstanding, accepted, finished := map[], 0, multiset{}, [];
    }

    // ------------------------------------------------------------ grants

    /** GnttabGrantForeignAccessCache: guaranteed up to the reserve, and `extra` beyond it. */
    method Grant(extra: nat) returns (ok: bool)
      modifies `grants
      ensures ok <==> old(grants) < MAX_SEGMENTS + maxRingPages + extra
      ensures grants == old(grants) + (if ok then 1 else 0)
    {
      ok := grants < MAX_SEGMENTS + maxRingPages + extra;
      if ok {
        grants := grants + 1;
      }
    }

    /** prepare_request: a reference for every segment, or none at all. */
    method PrepareRequest(r: Request, extra: nat) returns (ok: bool)
      modifies `grants
      ensures ok <==> r.segments == 0 || old(grants) + r.segments <= MAX_SEGMENTS + maxRingPages + extra
      ensures grants == old(grants) + (if ok then r.segments else 0)
    {
      var x := 0;
      while x < r.segments
        invariant 0 <= x <= r.segments
        invariant grants == old(grants) + x
        invariant x > 0 ==> grants <= MAX_SEGMENTS + maxRingPages + extra
      {
        var got := Grant(extra);
        if !got {
          while x > 0
            invariant 0 <= x <= r.segments
            invariant grants == old(grants) + x
          {
            x := x - 1;
            grants := grants - 1;
          }
          return false;
        }
        x := x + 1;
      }
      return true;
    }

    /** ungrant_request */
    method UngrantRequest(r: Request)
      modifies `grants
      ensures grants == old(grants) - r.segments
    {
      for x := 0 to r.segments
        invariant grants == old(grants) - x
      {
        grants := grants - 1;
      }
    }

    // ------------------------------------------------------------ starting requests

    /** start_this_request on the request at the head of the current sweep. */
    method StartThisRequest(extra: nat) returns (ok: bool)
      requires sched.cur != [] && sched.cur[0].segments > 0 && RingReady(View())
      requires InState(View(), sched.cur[0], Queued)
      modifies this
      ensures ok <==> CanGrant(old(View()), old(sched).cur[0], extra)
      ensures ok ==> View() == StartOne(old(View()))
      ensures !ok ==> View() == old(View())
    {
      hide PutRequest, RingSize;
      ghost var v := View();
      var sfr := sched.cur[0];
      assert state[sfr.id] == Queued;
      ok := PrepareRequest(sfr, extra);
      if !ok {
        return;
      }
      MoveToRing(v, sfr);
    }

    /** The second part of start_this_request: take the granted request off the schedule and
        put it on the ring. */
    method MoveToRing(ghost v: Dev, sfr: Request)
      requires sched.cur != [] && sfr == sched.cur[0] && RingReady(View())
      requires View() == v.(grants := v.grants + sfr.segments)
      modifies this
      ensures View() == StartOne(v)
    {
      hide PutRequest, RingSize;
      assert Dequeue(v.sched) == (sfr, v.sched.(cur := v.sched.cur[1..]));
      hide Dequeue, Flip;
      sched := sched.(cur := sched.cur[1..]);
      nrScheduled := nrScheduled - 1;
      ring := PutRequest(ring, sfr);
      inflight := inflight + [sfr];
      nrInflight := nrInflight + 1;
      state := state[sfr.id := Submitted];
    }

    /** start_requests */
    method StartRequests(extra: nat)
      requires Core(View()) && Controlled(View())
      modifies this
      ensures View() == Datapath.StartRequests(old(View()), extra)
    {
      hide Places, Served, Granted, SameBooks, StartOne, CanGrant, PushRequests;
      if pauseCount != 0 {
        return;
      }
      if !ringPresent {
        return;
      }
      ghost var d := View();
      while !ring.Full()
        invariant Core(View()) && live
        invariant StartAll(View(), extra) == StartAll(d, extra)
        decreases |sched.Queued()|
      {
        ghost var v := View();
        StartTurnOf(v);
        sched := Flip(sched);  // get_next_request
        if sched.cur == [] {
          assert Push(View()) == StartAll(d, extra);
          break;
        }
        var ok := StartThisRequest(extra);
        if !ok {
          assert Push(View()) == StartAll(d, extra);
          break;
        }
      }
      ring := PushRequests(ring);
    }

    // ------------------------------------------------------------ submission

    /** allocate_requests: all the requests that are needed, or none.  The pool supplies
        `available` of them. */
    method AllocateRequests(needed: nat, available: nat) returns (ok: bool)
      modifies `curOutstanding
      ensures ok <==> needed <= available
      ensures curOutstanding == old(curOutstanding) + (if ok then needed else 0)
    {
      var count := 0;
      while count < needed
        invariant 0 <= count <= needed && count <= available
        invariant curOutstanding == old(curOutstanding) + count
      {
        if count == available {
          ReleaseRequests(count);
          return false;
        }
        curOutstanding := curOutstanding + 1;
        count := count + 1;
      }
      return true;
    }

    /** release_requests */
    method ReleaseRequests(count: nat)
      modifies `curOutstanding
      ensures curOutstanding == old(curOutstanding) - count
    {
      for k := 0 to count
        invariant curOutstanding == old(curOutstanding) - k
      {
        curOutstanding := curOutstanding - 1;
      }
    }

    /** enqueue_request, as schedule_requests and replay_pending_requests use it. */
    method EnqueueRequest(r: Request)
      modifies `sched, `nrScheduled, `state
      ensures View() == EnqueueOne(old(View()), r)
    {
      hide Enqueue;
      nrScheduled := nrScheduled + 1;
      state := state[r.id := Queued];
      sched := Enqueue(sched, r);
    }

    /** schedule_requests */
    method ScheduleRequests(q: seq<Request>, extra: nat)
      requires Core(View()) && Controlled(View()) && Strangers(q, multiset(View().All())) && Bounded(q)
      requires EnqueueAsserts(View(), q)
      modifies this
      ensures View() == Datapath.StartRequests(EnqueueAll(old(View()), q), extra)
    {
      hide Core, Strangers, EnqueueOne, Datapath.StartRequests, Dev.All;
      ghost var d := View();
      EnqueueAllKeeps(d, q);
      var k := 0;
      while k < |q|
        invariant 0 <= k <= |q|
        invariant EnqueueAll(View(), q[k..]) == EnqueueAll(d, q) && EnqueueAsserts(View(), q[k..])
      {
        assert q[k..][0] == q[k] && q[k..][1..] == q[k + 1..];
        assert state[q[k].id] == Initialised;
        EnqueueRequest(q[k]);
        k := k + 1;
      }
      StartRequests(extra);
    }

    /** filter_process_irp.  `pool` lists the addresses that the lookaside list can supply, and bounce
        buffers can be had for `bounceBuffers` requests.  The IRP fails at once, and everything is released
        again, exactly if one or the other does not suffice.  Else the assertion that the requests are as many
        as were counted stops the machine exactly if there are no sectors and the buffer, which is not
        bounced, does not start on a page.  Otherwise the requests describe the transfer and are submitted. */
    method FilterProcessIrp(irp: nat, srb: SrbSplit.Srb, pool: seq<nat>, frames: int -> (int -> int),
                            bounceBuffers: nat, extra: nat)
      returns (status: IrpStatus, stopped: bool, q: seq<Request>)
      requires Inv(View()) && dpc.Idle? && irp !in irps && Unused(View(), pool)
      requires SrbSplit.WellFormed(srb) && SrbSplit.Moderate(srb.sectors, srb.sectorSize)
      modifies this
      ensures stopped <==>
        && Suffices(srb, |pool|, bounceBuffers)
        && srb.sectors == 0 && !SrbSplit.IsBounced(srb) && srb.buffer % SrbSplit.PAGE != 0
      ensures !stopped ==> (status == Pending <==> Suffices(srb, |pool|, bounceBuffers))
      ensures !stopped && status != Pending ==> status == Unsuccessful && View() == old(View())
      ensures !stopped && status == Pending ==>
        && Implements(q, irp, pool, srb, frames)
        && var size := Extent(srb.sectors, srb.sectorSize);
           && (old(ringPresent) ==> RingReady(old(View()))) && View() == Submit(old(View()), irp, size, q, extra)
           && (srb.sectors > 0 ==> Enabled(old(View()), ASubmit(irp, size, q, extra)))
    {
      hide Inv, Submit, NewRequests, RequestsOf, Carries, Unused, Strangers, Bounded, RingReady, Suffices, Implements;
      hide SrbSplit.WellFormed, SrbSplit.Moderate, SrbSplit.IsBounced, SrbSplit.Transfer, SrbSplit.Plan,
        SrbSplit.Targets, SrbSplit.Fits, SrbSplit.Needed, SrbSplit.PieceBounds, SrbSplit.TotalBytes,
        SrbSplit.Consecutive, SrbSplit.Buffered;
      ghost var d := View();
      status, q := Unsuccessful, [];
      var ok, ps;
      ok, stopped, ps := AllocateAndSplit(srb, |pool|, frames, bounceBuffers);
      if !ok || stopped {
        return;
      }
      SplitImplements(irp, pool, srb, frames, ps);
      q := RequestsOf(irp, srb.write, pool, ps);
      ImplementsIsNew(d, q, irp, pool, srb, frames);
      SubmitRequests(d, irp, Extent(srb.sectors, srb.sectorSize), q, extra);
      status := Pending;
    }

    /** The middle of filter_process_irp: count, allocate, initialise, compare. */
    method AllocateAndSplit(srb: SrbSplit.Srb, available: nat, frames: int -> (int -> int), bounceBuffers: nat)
      returns (ok: bool, stopped: bool, ps: seq<SrbSplit.Piece>)
      requires SrbSplit.WellFormed(srb) && SrbSplit.Moderate(srb.sectors, srb.sectorSize)
      modifies `curOutstanding
      ensures srb.sectorSize > 0 && (ok <==> Suffices(srb, available, bounceBuffers))
      ensures stopped <==> ok && srb.sectors == 0 && !SrbSplit.IsBounced(srb) && srb.buffer % SrbSplit.PAGE != 0
      ensures !stopped ==> curOutstanding == old(curOutstanding) + (if ok then |ps| else 0)
      ensures ok && !stopped ==>
        |ps| == SrbSplit.Needed(srb) <= available && forall p :: p in ps ==> SrbSplit.PieceBounds(p)
      ensures ok && !stopped ==>
        SrbSplit.TotalBytes(ps) == srb.sectorSize * srb.sectors && (srb.sectors == 0 <==> ps == [])
      ensures ok && !stopped ==>
        SrbSplit.Consecutive(srb.start, srb.sectorSize, srb.sectors, ps) && SrbSplit.Buffered(srb, ps)
      ensures ok && !stopped ==>
        (SrbSplit.Transfer(ps) == SrbSplit.Plan(srb.start, SrbSplit.Targets(srb, frames)) <==> SrbSplit.Fits(srb))
    {
      hide SrbSplit.SectorSize, SrbSplit.Covers, SrbSplit.PerPage, SrbSplit.Moderate, SrbSplit.IsBounced,
        SrbSplit.Transfer, SrbSplit.Plan, SrbSplit.Targets, SrbSplit.Fits, SrbSplit.Needed, SrbSplit.PieceBounds,
        SrbSplit.TotalBytes, SrbSplit.Buffered, SrbSplit.Consecutive;
      var nrRequests := SrbSplit.CountRequests(srb.sectors, srb.sectorSize, srb.buffer);
      CountOfSrb(srb, bounceBuffers);
      stopped, ps := false, [];
      ok := AllocateRequests(nrRequests, available);
      if !ok {
        return;
      }
      ok, ps := SrbSplit.SplitSrb(srb, frames, bounceBuffers);
      if !ok {
        ReleaseRequests(nrRequests);
        return;
      }
      stopped := |ps| != nrRequests;
    }

    /** The end of filter_process_irp: the IRP is pending and its requests, already counted, are scheduled. */
    method SubmitRequests(ghost d: Dev, irp: nat, size: Extent, q: seq<Request>, extra: nat)
      requires Inv(d) && Strangers(q, multiset(d.All())) && Bounded(q)
      requires View() == d.(curOutstanding := d.curOutstanding + |q|)
      modifies this
      ensures (d.ringPresent ==> RingReady(d)) && View() == Submit(d, irp, size, q, extra)
    {
      ReadyToSchedule(d, irp, size, q);
      RingOf(d);
      hide Inv, Core, Controlled, Strangers, NewIrp, EnqueueAll, Datapath.StartRequests, Bounded, EnqueueAsserts,
        MarkInitialised, RingReady, Accept, Dev.All;
      AcceptIs(d, View(), irp, size, q);
      MarkPending(irp, size, q);
      ScheduleRequests(q, extra);
    }

    method MarkPending(irp: nat, size: Extent, q: seq<Request>)
      modifies `state, `irps, `accepted
      ensures View() == old(View()).(irps := old(irps)[irp := NewIrp(size, q)], accepted := old(accepted) + multiset(q),
                                     state := MarkInitialised(old(state), q))
    {
      hide NewIrp, MarkInitialised;
      state := MarkInitialised(state, q);
      irps := irps[irp := NewIrp(size, q)];
      accepted := accepted + multiset(q);
    }

    // ------------------------------------------------------------ the completion DPC

    /** The body of the loop of handle_dpc: the request of the oldest response is handed over, and the result recorded
        for it is the status of that response. */
    method ProcessResponse(extra: nat)
      requires Inv(View()) && Enabled(View(), ADpcTake(extra))
      modifies this
      ensures Asserts(old(View()), ADpcTake(extra))
      ensures View() == DpcTake(old(View()), extra)
      ensures old(ring.Valid() && ring.Responses() != [])
      ensures var p := old(ring.Responses()[0]);
        && p.sfr in old(inflight) && done == old(done) + [p.sfr] && result == old(result)[p.sfr.id := p.status]
        && finished == old(finished)
    {
      hide Inv, Core, SharedRing.Ring.Valid, SharedRing.Ring.Responses;
      hide RingSize, PutRequest, Retire, StartOne, CanGrant;
      ghost var d := View();
      RetireReady(d);
      ResponseTaken(d, extra);
      var r := ring.slots[Slot(ring.rspCons, ring.n)].rsp;
      var sfr := r.sfr;
      RetireRequest(sfr, r.status);
      // a slot is free: start the head of the schedule
      sched := Flip(sched);
      if sched.cur != [] {
        var ok := StartThisRequest(extra);
        if ok {
          ring := PushRequests(ring);
        }
      }
    }

    /** Revoke the back end's access and move the request to the completed list. */
    method RetireRequest(sfr: Request, status: int)
      requires RingReady(View()) && TakeResponse(ring).0 == Rsp(Response(sfr, status)) && sfr in inflight
      modifies this
      ensures View() == Retire(old(View()))
    {
      hide RingSize, IndexOf, Without;
      UngrantRequest(sfr);
      result := result[sfr.id := status];
      ring := ring.(rspCons := Plus(ring.rspCons, 1));
      MoveToCompleted(sfr);
    }

    method MoveToCompleted(sfr: Request)
      requires sfr in inflight
      modifies this
      ensures View() == old(View()).(inflight := Without(old(inflight), IndexOf(old(inflight), sfr)),
                                     done := old(done) + [sfr], nrInflight := old(nrInflight) - 1,
                                     state := old(state)[sfr.id := Processed])
    {
      hide IndexOf, Without;
      inflight := Without(inflight, IndexOf(inflight, sfr));
      done := done + [sfr];
      nrInflight := nrInflight - 1;
      state := state[sfr.id := Processed];
    }

    /** What the back end does between two steps of the front end: those of `acts` that it can. */
    method BackEnd(acts: seq<Action>)
      requires Inv(View()) && live && forall k :: 0 <= k < |acts| ==> IsBackEnd(acts[k])
      modifies `ring, `held
      ensures Inv(View()) && ring.rspCons == old(ring.rspCons) && (acts == [] ==> ring == old(ring))
      ensures Outcomes(Visible(old(View()))) <= Outcomes(Visible(View()))
    {
      hide Inv, Visible, Outcomes, Handed;
      for k := 0 to |acts|
        invariant Inv(View()) && ring.rspCons == old(ring.rspCons)
        invariant k == 0 ==> ring == old(ring)
        invariant Outcomes(Visible(old(View()))) <= Outcomes(Visible(View()))
      {
        var a := acts[k];
        ghost var v := View();
        if a.AConsume? && ring.reqCons != ring.reqProd {
          BackEndStep(v, a);
          var (e, rest) := TakeRequest(ring);
          ring, held := rest, held + multiset{e.req};
        } else if a.AAnswer? && a.r in held {
          BackEndStep(v, a);
          ring, held := PutResponse(ring, Response(a.r, a.status)), held - multiset{a.r};
        } else if a.APublish? {
          BackEndStep(v, a);
          ring := PushResponses(ring);
        }
      }
    }

    /** handle_dpc.  The back end runs between any two iterations and before the final look; `rounds` says what it
        does there.  The requests of all responses that were published are handed over, those published at the start
        first and in ring order, each with the status of its response, and in the end no published response is left. */
    method HandleDpc(extra: nat, rounds: seq<seq<Action>>)
      requires Inv(View()) && dpc.Idle?
      requires forall i, k :: 0 <= i < |rounds| && 0 <= k < |rounds[i]| ==> IsBackEnd(rounds[i][k])
      modifies this
      ensures Inv(View()) && dpc.Idle?
      ensures if old(!ringPresent || (pauseCount != 0 && nrInflight == 0)) then View() == old(View())
              else ring.rspCons == ring.rspProd
                   && old(Handed(done, result)) + Outcomes(Visible(old(View()))) <= Handed(done, result)
                   && (rounds == [] ==>
                         Handed(done, result) == old(Handed(done, result)) + Outcomes(Visible(old(View()))))
    {
      hide Inv, Visible, Outcomes, Handed;
      ghost var d := View();
      if !ringPresent || (pauseCount != 0 && nrInflight == 0) {
        return;
      }
      PollingStarts(d);
      ghost var due := Handed(d.done, d.result) + Outcomes(Visible(d));
      var again, i := true, 0;
      dpc := Polling(ring.rspProd);
      while again
        invariant Inv(View()) && live && dpc.Polling? && 0 <= i <= |rounds|
        invariant again ==> dpc.prod == ring.rspProd
        invariant !again ==> ring.rspCons == ring.rspProd
        invariant due <= Handed(done, result) + Outcomes(Visible(View()))
        invariant rounds == [] ==> due == Handed(done, result) + Outcomes(Visible(View()))
        decreases |rounds| - i, if again then 1 else 0
      {
        i := PollRing(extra, rounds, i, due);
        if i < |rounds| {
          ghost var v := View();
          BackEnd(rounds[i]);
          i := i + 1;
          PrefixOn(due, Handed(done, result), Outcomes(Visible(v)), Outcomes(Visible(View())));
        }
        again := ring.rspCons != ring.rspProd;  // RING_FINAL_CHECK_FOR_RESPONSES
        if again {
          DpcMovesOn(View(), Polling(ring.rspProd));
          VisibleFrame(View(), Polling(ring.rspProd));
          dpc := Polling(ring.rspProd);
        }
      }
      NothingVisible(View());
      DpcMovesOn(View(), Idle);
      dpc := Idle;
    }

    /** The loop of handle_dpc up to the response producer it has read. */
    method PollRing(extra: nat, rounds: seq<seq<Action>>, from: int, ghost due: seq<Finish>) returns (i: int)
      requires Inv(View()) && live && dpc.Polling? && dpc.prod == ring.rspProd && 0 <= from <= |rounds|
      requires forall j, k :: 0 <= j < |rounds| && 0 <= k < |rounds[j]| ==> IsBackEnd(rounds[j][k])
      requires due <= Handed(done, result) + Outcomes(Visible(View()))
      requires rounds == [] ==> due == Handed(done, result) + Outcomes(Visible(View()))
      modifies this
      ensures Inv(View()) && live && dpc == old(dpc) && ring.rspCons == dpc.prod && from <= i <= |rounds|
      ensures i == from ==> ring.rspProd == dpc.prod
      ensures due <= Handed(done, result) + Outcomes(Visible(View()))
      ensures rounds == [] ==> due == Handed(done, result) + Outcomes(Visible(View()))
    {
      hide Inv, Visible, Outcomes, Handed;
      i := from;
      while ring.rspCons != dpc.prod
        invariant Inv(View()) && live && dpc == old(dpc) && from <= i <= |rounds|
        invariant i == from ==> ring.rspProd == dpc.prod
        invariant due <= Handed(done, result) + Outcomes(Visible(View()))
        invariant rounds == [] ==> due == Handed(done, result) + Outcomes(Visible(View()))
        decreases Diff(dpc.prod, ring.rspCons)
      {
        TakeVisible(View(), extra);
        ProcessResponse(extra);
        if i < |rounds| {
          ghost var v := View();
          BackEnd(rounds[i]);
          i := i + 1;
          PrefixOn(due, Handed(done, result), Outcomes(Visible(v)), Outcomes(Visible(View())));
        }
      }
    }

    /** complete_this_request, on the first request of the list. */
    method CompleteThisRequest()
      requires Inv(View()) && done != []
      modifies this
      ensures Inv(View()) && done == old(done)[1..]
      ensures var x := old(done[0]);
        && old(x.id in result) && finished == old(finished) + [Finish(x, old(result[x.id]))]
        && state == old(state) - {x.id} && result == old(result) - {x.id}
      ensures finished + Handed(done, result) == old(finished) + old(Handed(done, result))
    {
      hide Inv, CompleteInIrp, Without, Handed;
      FinishReady(View());
      HandedOneLess(View());
      UpdateIrp();
      FinishedThen(old(finished), Finish(old(done[0]), old(result[done[0].id])), Handed(done, result));
    }

    /** finish_requests: every request handed over is completed, once, with the result recorded for it. */
    method FinishRequests()
      requires Inv(View())
      modifies this
      ensures Inv(View()) && done == []
      ensures finished == old(finished) + old(Handed(done, result))
      ensures Retired(finished) == Retired(old(finished)) + multiset(old(done))
    {
      hide Inv, Handed, Retired;
      while done != []
        invariant Inv(View())
        invariant finished + Handed(done, result) == old(finished) + old(Handed(done, result))
        decreases |done|
      {
        CompleteThisRequest();
      }
      HandedLength(done, result);
      RetiredHanded(old(finished), old(done), old(result));
    }

    /** The IRP learns of the result and the request is released. */
    method UpdateIrp()
      requires done != [] && Asserts(View(), AFinish(0))
      modifies this
      ensures View() == FinishOne(old(View()), 0)
    {
      hide CompleteInIrp;
      var sfr := done[0];
      var res := result[sfr.id];
      irps := irps[sfr.irp := CompleteInIrp(irps[sfr.irp], sfr.bytes, res)];
      curOutstanding := curOutstanding - 1;
      state, result := state - {sfr.id}, result - {sfr.id};
      finished := finished + [Finish(sfr, res)];
      done := Without(done, 0);
    }

    // ------------------------------------------------------------ suspend and replay

    /** Everything in flight is put aside for replay; its back end is gone. */
    method BounceInflight()
      modifies this
      ensures View() == old(View()).(replay := old(replay + inflight), nrReplay := old(nrReplay + nrInflight),
                                     inflight := [], nrInflight := 0, live := false, held := multiset{})
    {
      replay := replay + inflight;
      inflight := [];
      nrReplay := nrReplay + nrInflight;
      nrInflight := 0;
      live, held := false, multiset{};
    }

    method SetAside(suspend: bool)
      modifies this
      ensures View() == Rescue(old(View()), suspend)
    {
      pauseCount := pauseCount + 1;
      suspended := suspended || suspend;
      BounceInflight();
    }

    /** early_suspend_cb: nothing is in flight any more and nothing will be started, every request is still there, and
        those that were in flight wait for replay behind those that waited already. */
    method EarlySuspend()
      requires Inv(View()) && dpc.Idle?
      modifies this
      ensures Inv(View()) && multiset(View().All()) == multiset(old(View().All()))
      ensures inflight == [] && pauseCount > 0 && suspended && replay == old(replay) + old(inflight)
      ensures nrReplay == |replay|
      ensures View() == Rescue(old(View()), true)
    {
      hide Inv, Rescue, Dev.All;
      RescueSafe(View(), true);
      SetAside(true);
    }

    /** datapath_notice_dehibernated: the same, but the device is not marked suspended. */
    method NoticeDehibernated()
      requires Inv(View()) && dpc.Idle?
      modifies this
      ensures Inv(View()) && multiset(View().All()) == multiset(old(View().All()))
      ensures inflight == [] && pauseCount > 0 && suspended == old(suspended)
      ensures replay == old(replay) + old(inflight) && nrReplay == |replay|
      ensures View() == Rescue(old(View()), false)
    {
      hide Inv, Rescue, Dev.All;
      RescueSafe(View(), false);
      SetAside(false);
    }

    /** replay_pending_requests */
    method ReplayPendingRequests()
      modifies this
      ensures View() == ReplayAll(old(View()))
    {
      ghost var d := View();
      while replay != []
        invariant ReplayAll(View()) == ReplayAll(d)
        decreases |replay|
      {
        ghost var n := |replay|;
        ReplayFirst();
        assert |replay| == n - 1;
      }
    }

    method ReplayFirst()
      requires replay != []
      modifies this
      ensures View() == ReplayOne(old(View()))
    {
      hide EnqueueOne;
      var sfr := replay[0];
      state := state[sfr.id := Initialised];
      UngrantRequest(sfr);
      nrReplay := nrReplay - 1;
      replay := replay[1..];
      EnqueueRequest(sfr);
    }

    /** abort_pending_requests, up to the call of finish_requests: what waits for replay is handed over in order, with
        errors. */
    method AbortPendingRequests()
      modifies this
      ensures View() == AbortAll(old(View()))
      ensures Core(old(View())) ==>
        && replay == [] && done == old(done) + old(replay) && finished == old(finished)
        && (forall r :: r in old(replay) ==> r.id in result && result[r.id] == ERROR != OKAY)
        && (forall r :: r in old(done) && r.id in old(result) ==> r.id in result && result[r.id] == old(result)[r.id])
    {
      hide Core;
      ghost var d := View();
      while replay != []
        invariant AbortAll(View()) == AbortAll(d)
        decreases |replay|
      {
        ghost var n := |replay|;
        AbortFirst();
        assert |replay| == n - 1;
      }
      if Core(d) {
        AbortResults(d);
      }
    }

    method AbortFirst()
      requires replay != []
      modifies this
      ensures View() == AbortOne(old(View()))
    {
      var sfr := replay[0];
      UngrantRequest(sfr);
      result := result[sfr.id := ERROR];
      state := state[sfr.id := Processed];
      nrReplay := nrReplay - 1;
      replay, done := replay[1..], done + [sfr];
    }

    /** unpause_datapath */
    method UnpauseDatapath(extra: nat)
      requires Core(View()) && Controlled(View().(pauseCount := pauseCount - 1))
      modifies this
      ensures View() == Unpause(old(View()), extra)
    {
      hide Core;
      CoreFrame(View(), View().(pauseCount := pauseCount - 1));
      pauseCount := pauseCount - 1;
      if pauseCount == 0 {
        StartRequests(extra);
      }
    }
  }

  // ------------------------------------------------------------ from SRB to requests

  /** Addresses of free requests. */
  ghost predicate Unused(d: Dev, pool: seq<nat>) {
    && (forall i, j :: 0 <= i < j < |pool| ==> pool[i] != pool[j])
    && (forall i :: 0 <= i < |pool| ==> pool[i] !in d.state)
  }

  /** Requests and bounce buffers are to be had for the whole SRB. */
  predicate Suffices(srb: SrbSplit.Srb, requests: nat, bounceBuffers: nat)
    requires srb.sectorSize > 0
  {
    SrbSplit.Needed(srb) <= requests && (SrbSplit.IsBounced(srb) ==> SrbSplit.Needed(srb) <= bounceBuffers)
  }

  /** How many requests an SRB needs, and when the bounce buffers suffice for them. */
  lemma CountOfSrb(srb: SrbSplit.Srb, available: nat)
    requires SrbSplit.WellFormed(srb) && SrbSplit.Moderate(srb.sectors, srb.sectorSize)
    ensures SrbSplit.Needed(srb) == SrbSplit.CountRequests(srb.sectors, srb.sectorSize, srb.buffer) >= 0
    ensures SrbSplit.IsBounced(srb) ==>
      (srb.sectors <= available * (MAX_SEGMENTS * SrbSplit.PerPage(srb.sectorSize)) <==>
         SrbSplit.Needed(srb) <= available)
  {
    var n, s := srb.sectors, srb.sectorSize;
    SrbSplit.CountIsGroups(n, s, srb.buffer);
    SrbSplit.FirstSectorNonNegative(srb.buffer, s);
    hide SrbSplit.CountRequests, SrbSplit.Bounced, SrbSplit.SectorSize, SrbSplit.Covers;
    SrbSplit.GroupsFit(SrbSplit.Needed(srb), n + SrbSplit.FirstSector(srb.buffer, s),
                       MAX_SEGMENTS * SrbSplit.PerPage(s), available);
  }

  /** Requests that implement an SRB are what the datapath expects of a submission, and can be scheduled. */
  lemma ImplementsIsNew(d: Dev, q: seq<Request>, irp: nat, pool: seq<nat>, srb: SrbSplit.Srb,
                        frames: int -> (int -> int))
    requires Inv(d) && Unused(d, pool) && SrbSplit.WellFormed(srb) && Implements(q, irp, pool, srb, frames)
    ensures Strangers(q, multiset(d.All())) && Bounded(q)
    ensures q != [] ==> NewRequests(d, irp, Extent(srb.sectors, srb.sectorSize), q)
  {
    hide Inv, Dev.All, Implements, Sum, SrbSplit.WellFormed;
    StateCovers(d);
    ImplementsIs(q, irp, pool, srb, frames);
    forall r | r in q ensures r.irp == irp && 1 <= r.segments <= MAX_SEGMENTS && r.id !in d.state {
      var k :| 0 <= k < |q| && q[k] == r;
    }
  }

  lemma ImplementsIs(q: seq<Request>, irp: nat, pool: seq<nat>, srb: SrbSplit.Srb, frames: int -> (int -> int))
    requires SrbSplit.WellFormed(srb) && Implements(q, irp, pool, srb, frames)
    ensures |q| <= |pool| && Sum(q, BytesOf(irp)) == srb.sectors * srb.sectorSize
    ensures forall k :: 0 <= k < |q| ==> q[k].id == pool[k] && q[k].irp == irp && 1 <= q[k].segments <= MAX_SEGMENTS
  {
    hide OnDisk, Sum, PiecesOf, SrbSplit.WellFormed, SrbSplit.Transfer, SrbSplit.Plan, SrbSplit.Targets, SrbSplit.Fits,
      SrbSplit.Buffered, SrbSplit.Needed;
  }

  lemma AcceptIs(d: Dev, v: Dev, irp: nat, size: Extent, q: seq<Request>)
    requires v == d.(curOutstanding := d.curOutstanding + |q|)
    ensures Accept(d, irp, size, q) == v.(irps := v.irps[irp := NewIrp(size, q)], accepted := v.accepted + multiset(q),
                                          state := MarkInitialised(v.state, q))
  {
    hide NewIrp, MarkInitialised;
  }

  lemma ReadyToSchedule(d: Dev, irp: nat, size: Extent, q: seq<Request>)
    requires Inv(d) && Strangers(q, multiset(d.All())) && Bounded(q)
    ensures var e := Accept(d, irp, size, q);
      Core(e) && Controlled(e) && Strangers(q, multiset(e.All())) && Bounded(q) && EnqueueAsserts(e, q)
  {
    CoreOf(d);
    RingOf(d);
    AcceptState(d, irp, size, q);
    assert forall i, j :: 0 <= i < j < |q| ==> q[i].id != q[j].id;
    hide Inv, Core, Controlled, Accept, Strangers, EnqueueAsserts, Dev.All, Bounded, MarkInitialised;
    AcceptCore(d, irp, size, q);
    AcceptControlled(d, irp, size, q);
    Marked(d.state, q);
    EnqueueAssertsHold(Accept(d, irp, size, q), q);
  }

  lemma AcceptState(d: Dev, irp: nat, size: Extent, q: seq<Request>)
    ensures Accept(d, irp, size, q).state == MarkInitialised(d.state, q)
  {
    hide MarkInitialised, NewIrp;
  }

  /** Every request of the device has a state. */
  lemma StateCovers(d: Dev)
    requires Inv(d)
    ensures forall x :: x in multiset(d.All()) ==> x.id in d.state
  {
    hide OnRing, Granted, Conserved, IrpsRight, Controlled, Unique, Sweeping, Bounded;
    FourLists(d.sched.Queued(), d.inflight, d.replay, d.done);
  }

  /** Nothing is lost when everything in flight is put aside. */
  lemma {:induction false} RescueSafe(d: Dev, suspend: bool)
    requires Inv(d) && d.dpc.Idle?
    ensures var e := Rescue(d, suspend);
      && Inv(e) && multiset(e.All()) == multiset(d.All()) && e.pauseCount > 0 && e.nrReplay == |e.replay|
      && e.inflight == [] && e.replay == d.replay + d.inflight && e.suspended == (d.suspended || suspend)
  {
    RescueKeeps(d, suspend);
    RescuePlaces(d, suspend);
    hide Places, OnRing, Granted, IrpsRight, Conserved;
    Counters(Rescue(d, suspend));
  }

  // ------------------------------------------------------------ the back end

  predicate IsBackEnd(a: Action) {
    a.AConsume? || a.AAnswer? || a.APublish?
  }

  lemma PrefixOn(due: seq<Finish>, done: seq<Finish>, u: seq<Finish>, v: seq<Finish>)
    requires due <= done + u && u <= v
    ensures due <= done + v
  {
  }

  lemma VisibleFrame(d: Dev, dpc: Dpc)
    ensures Visible(d.(dpc := dpc)) == Visible(d)
  {
  }

  lemma {:induction false} OutcomesPrefix(q: seq<Response>, k: nat)
    requires k <= |q|
    ensures Outcomes(q[..k]) <= Outcomes(q)
  {
    if k > 0 {
      assert q[..k][1..] == q[1..][..k - 1];
      OutcomesPrefix(q[1..], k - 1);
    }
  }

  lemma {:induction false} ConsumeVisible(d: Dev, held: multiset<Request>)
    requires d.live && d.ring.Valid() && d.ring.reqCons != d.ring.reqProd
    ensures Visible(d.(ring := TakeRequest(d.ring).1, held := held)) == Visible(d)
  {
    TakeRequestRemoves(d.ring);
    hide SharedRing.Ring.Valid, SharedRing.Ring.Responses;
  }

  lemma {:induction false} AnswerVisible(d: Dev, p: Response, held: multiset<Request>)
    requires d.live && d.ring.Valid() && d.ring.Unanswered() > 0
    ensures Visible(d.(ring := PutResponse(d.ring, p), held := held)) == Visible(d)
  {
    PutResponseAppends(d.ring, p);
    VisibleWithin(d.ring);
    hide SharedRing.Ring.Valid, SharedRing.Ring.Responses;
  }

  lemma VisibleWithin(r: Ring<Request, Response>)
    requires r.Valid()
    ensures Diff(r.rspProd, r.rspCons) <= |r.Responses()|
  {
  }

  lemma ServedRing(d: Dev)
    requires Inv(d) && d.live
    ensures d.ring.Valid() && d.ring.Unanswered() == |d.held|
  {
    hide Places, Granted, IrpsRight, Conserved, Controlled, Moving;
  }

  /** A step of the back end hides no visible response. */
  lemma {:induction false} BackEndStep(d: Dev, a: Action)
    requires Inv(d) && d.live && IsBackEnd(a) && Enabled(d, a)
    ensures Asserts(d, a) && Inv(Do(d, a))
    ensures var e := Do(d, a); e.ring.rspCons == d.ring.rspCons && Outcomes(Visible(d)) <= Outcomes(Visible(e))
  {
    hide Inv, Outcomes, Visible, SharedRing.Ring.Valid;
    ServedRing(d);
    match a
    case AConsume => ConsumeKeeps(d); ConsumeVisible(d, Do(d, a).held);
    case AAnswer(r, status) => AnswerKeeps(d, r, status); AnswerVisible(d, Response(r, status), d.held - multiset{r});
    case APublish => PublishKeeps(d); PublishVisible(d);
  }

  lemma {:induction false} PublishVisible(d: Dev)
    requires d.live && d.ring.Valid()
    ensures Outcomes(Visible(d)) <= Outcomes(Visible(d.(ring := PushResponses(d.ring))))
  {
    hide Outcomes;
    var r, r' := d.ring, PushResponses(d.ring);
    PushResponsesPublishes(r);
    assert r'.Responses()[..Diff(r'.rspProd, r'.rspCons)] == r.Responses();
    OutcomesPrefix(r.Responses(), Diff(r.rspProd, r.rspCons));
  }

  /** What the body of the DPC loop relies on. */
  lemma {:induction false} RetireReady(d: Dev)
    requires Inv(d) && d.dpc.Polling? && d.ring.rspCons != d.dpc.prod
    ensures Asserts(d, ADpcTake(0))
    ensures var e := Retire(d); var f := e.(sched := Flip(e.sched));
      && RingReady(e) && RingReady(f)
      && (f.sched.cur != [] ==> f.sched.cur[0].segments > 0 && InState(f, f.sched.cur[0], Queued))
  {
    CoreOf(d);
    TakeAsserts(d, 0);
    ResponseIsInflight(d);
    RetirePlaces(d);
    RetireRing(d);
    var e := Retire(d);
    FlipKeeps(e);
    var f := e.(sched := Flip(e.sched));
    if f.sched.cur != [] {
      assert f.sched.cur[0] in f.All();
    }
  }

  /** The requests that have been handed over to be completed, with the results recorded for them. */
  ghost function Handed(done: seq<Request>, result: map<nat, int>): seq<Finish> {
    seq(|done|, k requires 0 <= k < |done| =>
      Finish(done[k], if done[k].id in result then result[done[k].id] else ERROR))
  }

  lemma HandedOneMore(done: seq<Request>, result: map<nat, int>, x: Request, v: int)
    requires forall r :: r in done ==> r.id != x.id
    ensures Handed(done + [x], result[x.id := v]) == Handed(done, result) + [Finish(x, v)]
  {
    var more := Handed(done + [x], result[x.id := v]);
    forall k | 0 <= k < |done| ensures more[k] == Handed(done, result)[k] {
      assert done[k] in done;
    }
  }

  lemma HandedOneLess(d: Dev)
    requires Places(d) && d.done != [] && d.done[0].id in d.result
    ensures var x := d.done[0];
      Handed(d.done, d.result) == [Finish(x, d.result[x.id])] + Handed(d.done[1..], d.result - {x.id})
  {
    hide Places;
    forall k | 1 <= k < |d.done| ensures d.done[k].id != d.done[0].id {
      DoneApart(d, 0, k);
    }
  }

  lemma FinishReady(d: Dev)
    requires Inv(d) && d.done != []
    ensures Asserts(d, AFinish(0)) && Inv(FinishOne(d, 0)) && Without(d.done, 0) == d.done[1..] && Places(d)
  {
    hide Inv, Places;
    PlacesOf(d);
    DoneIsPending(d, 0);
    FinishKeeps(d, 0);
  }

  /** What responses say: each request with its status. */
  function Outcomes(q: seq<Response>): seq<Finish> {
    if q == [] then [] else [Finish(q[0].sfr, q[0].status)] + Outcomes(q[1..])
  }

  /** The responses that the back end has published and the front end has not taken. */
  ghost function Visible(d: Dev): seq<Response> {
    if d.live && d.ring.Valid() then d.ring.Responses()[..Diff(d.ring.rspProd, d.ring.rspCons)] else []
  }

  lemma PollingStarts(d: Dev)
    requires Inv(d) && d.dpc.Idle? && d.ringPresent && (d.pauseCount == 0 || d.nrInflight != 0)
    ensures d.live && Inv(d.(dpc := Polling(d.ring.rspProd)))
    ensures Visible(d.(dpc := Polling(d.ring.rspProd))) == Visible(d)
  {
    DpcEnterKeeps(d);
    hide Places, Served, Granted, IrpsRight, Conserved;
    assert d.live by { Counters(d); }
  }

  lemma NothingVisible(d: Dev)
    requires d.ring.rspCons == d.ring.rspProd
    ensures Outcomes(Visible(d)) == []
  {
  }

  lemma {:induction false} StartNextResponses(d: Dev, extra: nat)
    requires Core(d) && Published(d) && d.live && !d.ring.Full()
    ensures var e := StartNext(d, extra);
      && e.ring.Valid() && e.ring.Responses() == d.ring.Responses()
      && e.ring.rspCons == d.ring.rspCons && e.ring.rspProd == d.ring.rspProd
      && e.done == d.done && e.dpc == d.dpc && e.live
  {
    hide Places, Granted;
    var f := d.(sched := Flip(d.sched));
    if f.sched.cur != [] && CanGrant(f, f.sched.cur[0], extra) {
      PutRequestAppends(d.ring, f.sched.cur[0]);
      PushRequestsPublishes(StartOne(f).ring);
    }
  }

  lemma {:induction false} RetireVisible(d: Dev)
    requires Core(d) && Published(d) && d.dpc.Polling? && d.ring.rspCons != d.dpc.prod && Retirable(d)
    ensures var e := Retire(d);
      && Core(e) && Published(e) && e.live && !e.ring.Full() && e.dpc == d.dpc && e.ring.rspProd == d.ring.rspProd
      && Diff(e.ring.rspProd, e.ring.rspCons) == Diff(d.ring.rspProd, d.ring.rspCons) - 1
      && d.ring.Responses() != [] && e.ring.Responses() == d.ring.Responses()[1..]
      && e.done == d.done + [d.ring.Responses()[0].sfr]
  {
    hide Places, Granted;
    RetirePlaces(d);
    RetireRing(d);
    ResponseIsInflight(d);
    TakeResponseRemoves(d.ring);
  }

  lemma HandOver(done: seq<Finish>, q: seq<Response>, n: nat)
    requires 0 < n <= |q|
    ensures (done + [Finish(q[0].sfr, q[0].status)]) + Outcomes(q[1..][..n - 1]) == done + Outcomes(q[..n])
  {
    var v, x := q[..n], Finish(q[0].sfr, q[0].status);
    assert v[0] == q[0] && v[1..] == q[1..][..n - 1];
    assert done + ([x] + Outcomes(v[1..])) == (done + [x]) + Outcomes(v[1..]);
  }

  lemma {:induction false} ResponseTaken(d: Dev, extra: nat)
    requires Inv(d) && Enabled(d, ADpcTake(extra))
    ensures Asserts(d, ADpcTake(extra)) && d.ring.Valid() && d.ring.Responses() != []
    ensures var e, p := DpcTake(d, extra), d.ring.Responses()[0];
      && p.sfr in d.inflight && e.done == d.done + [p.sfr] && e.result == d.result[p.sfr.id := p.status]
      && e.finished == d.finished
  {
    hide Inv, Core, DpcTake, SharedRing.Ring.Valid, SharedRing.Ring.Responses;
    CoreOf(d);
    TakeAsserts(d, extra);
    TakeDone(d, extra);
  }

  /** What an iteration of the DPC hands over. */
  lemma {:induction false} TakenIs(d: Dev, extra: nat)
    requires Inv(d) && Enabled(d, ADpcTake(extra)) && Asserts(d, ADpcTake(extra))
    ensures d.ring.Valid() && d.ring.Responses() != []
    ensures var e, p := DpcTake(d, extra), d.ring.Responses()[0];
      Handed(e.done, e.result) == Handed(d.done, d.result) + [Finish(p.sfr, p.status)]
  {
    hide Inv, DpcTake, SharedRing.Ring.Valid, SharedRing.Ring.Responses, Handed, Asserts;
    ResponseTaken(d, extra);
    var p := d.ring.Responses()[0];
    DoneElsewhere(d, p.sfr);
    HandedOneMore(d.done, d.result, p.sfr, p.status);
  }

  lemma DoneElsewhere(d: Dev, x: Request)
    requires Inv(d) && x in d.inflight
    ensures forall r :: r in d.done ==> r.id != x.id
  {
    hide Places, OnRing, Granted, IrpsRight, Conserved, Controlled;
    forall r | r in d.done ensures r.id != x.id {
      Apart(d, r, x);
    }
  }

  lemma FinishedThen(f: seq<Finish>, x: Finish, h: seq<Finish>)
    ensures (f + [x]) + h == f + ([x] + h)
  {
  }

  /** Finishing what was handed over retires exactly these requests. */
  lemma {:induction false} RetiredHanded(f: seq<Finish>, done: seq<Request>, result: map<nat, int>)
    ensures Retired(f + Handed(done, result)) == Retired(f) + multiset(done)
    decreases |done|
  {
    hide Retired, Handed, BytesDone;
    HandedLength(done, result);
    if done == [] {
      assert f + Handed(done, result) == f;
    } else {
      var front := done[..|done| - 1];
      var x := HandedFront(done, result);
      RetiredHanded(f, front, result);
      BytesDoneAppend(f + Handed(front, result), x, 0);
      assert f + Handed(done, result) == f + Handed(front, result) + [x];
      assert done == front + [x.req];
    }
  }

  lemma HandedFront(done: seq<Request>, result: map<nat, int>) returns (x: Finish)
    requires done != []
    ensures Handed(done, result) == Handed(done[..|done| - 1], result) + [x] && x.req == done[|done| - 1]
  {
    x := Handed(done, result)[|done| - 1];
  }

  lemma HandedLength(done: seq<Request>, result: map<nat, int>)
    ensures |Handed(done, result)| == |done|
  {
  }

  /** An iteration of the DPC hands over the request of the oldest visible response. */
  lemma {:induction false} TakeVisible(d: Dev, extra: nat)
    requires Inv(d) && Enabled(d, ADpcTake(extra))
    ensures Asserts(d, ADpcTake(extra)) && Inv(DpcTake(d, extra))
    ensures var e := DpcTake(d, extra);
      && e.dpc == d.dpc && e.ring.rspProd == d.ring.rspProd
      && Diff(e.ring.rspProd, e.ring.rspCons) < Diff(d.ring.rspProd, d.ring.rspCons)
      && Handed(e.done, e.result) + Outcomes(Visible(e)) == Handed(d.done, d.result) + Outcomes(Visible(d))
  {
    hide Places, Granted, Retire, StartNext, Outcomes, Conserved, IrpsRight, Controlled, Moving;
    ResponseIsInflight(d);
    TakeAsserts(d, extra);
    DpcTakeKeeps(d, extra);
    RetireVisible(d);
    StartNextResponses(Retire(d), extra);
    TakenIs(d, extra);
    HandOver(Handed(d.done, d.result), d.ring.Responses(), Diff(d.ring.rspProd, d.ring.rspCons));
  }
}
