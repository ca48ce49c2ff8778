/** What becomes of an IRP for no sectors (scsifilt/datapath.c).

    If the buffer starts on a page such an IRP is counted and split into no
    requests, passes the assertion that compares the two, and is submitted with
    nothing to do.  No step completes it.
  */
module DatapathEmpty {
  import opened RingIndex
  import opened SharedRing
  import opened Elevator
  import opened Measures
  import opened Datapath
  import opened DatapathSafety
  import opened DatapathSteps
  import opened DatapathRuns

  type Irps = map<nat, Irp>

  // ------------------------------------------------------------ IRPs do not matter to most operations

  /** The device with other IRPs. */
  function With(d: Dev, m: Irps): Dev {
    d.(irps := m)
  }

  lemma {:induction false} StartOneSame(d: Dev, m: Irps)
    requires RingReady(d) && d.sched.Queued() != []
    ensures StartOne(With(d, m)) == With(StartOne(d), m)
  {
    hide RingSize, PutRequest, Dequeue;
  }

  /** The loop of start_requests goes on. */
  predicate GoesOn(d: Dev, extra: nat) {
    var f := Flip(d.sched);
    !d.ring.Full() && f.cur != [] && CanGrant(d, f.cur[0], extra)
  }

  lemma {:induction false} StartAllTurn(d: Dev, extra: nat)
    requires RingReady(d)
    ensures GoesOn(d, extra) ==>
      var e := StartOne(d.(sched := Flip(d.sched)));
      && RingReady(e) && |e.sched.Queued()| < |d.sched.Queued()| && StartAll(d, extra) == StartAll(e, extra)
      && (StartAsserts(d, extra) <==> InState(d, Flip(d.sched).cur[0], Queued) && StartAsserts(e, extra))
    ensures !GoesOn(d, extra) ==>
      && StartAll(d, extra) == Push(if d.ring.Full() then d else d.(sched := Flip(d.sched)))
      && (StartAsserts(d, extra) <==>
            d.ring.Full() || Flip(d.sched).cur == [] || InState(d, Flip(d.sched).cur[0], Queued))
  {
  }

  lemma TurnSame(d: Dev, m: Irps, extra: nat)
    ensures GoesOn(With(d, m), extra) <==> GoesOn(d, extra)
  {
  }

  lemma PushSame(d: Dev, m: Irps)
    ensures Push(With(d, m)) == With(Push(d), m)
  {
  }

  lemma {:induction false} StartAllSame(d: Dev, m: Irps, extra: nat)
    requires RingReady(d)
    ensures StartAll(With(d, m), extra) == With(StartAll(d, extra), m)
    ensures StartAsserts(With(d, m), extra) <==> StartAsserts(d, extra)
    decreases |d.sched.Queued()|
  {
    StartAllTurn(d, extra);
    StartAllTurn(With(d, m), extra);
    hide StartAll, StartAsserts, StartOne, RingSize, GoesOn, Push;
    var f := d.(sched := Flip(d.sched));
    assert With(d, m).(sched := Flip(d.sched)) == With(f, m);
    TurnSame(d, m, extra);
    PushSame(d, m);
    PushSame(f, m);
    if GoesOn(d, extra) {
      StartOneSame(f, m);
      StartAllSame(StartOne(f), m, extra);
    }
  }

  lemma {:induction false} StartRequestsSame(d: Dev, m: Irps, extra: nat)
    requires d.ringPresent ==> RingReady(d)
    ensures StartRequests(With(d, m), extra) == With(StartRequests(d, extra), m)
    ensures StartRequestsAsserts(With(d, m), extra) <==> StartRequestsAsserts(d, extra)
  {
    hide StartAll, StartAsserts, RingSize;
    if d.ringPresent {
      StartAllSame(d, m, extra);
    }
  }

  lemma {:induction false} EnqueueAllSame(d: Dev, m: Irps, q: seq<Request>)
    ensures EnqueueAll(With(d, m), q) == With(EnqueueAll(d, q), m)
    ensures EnqueueAsserts(With(d, m), q) <==> EnqueueAsserts(d, q)
    decreases |q|
  {
    if q != [] {
      assert EnqueueOne(With(d, m), q[0]) == With(EnqueueOne(d, q[0]), m);
      EnqueueAllSame(EnqueueOne(d, q[0]), m, q[1..]);
    }
  }

  lemma {:induction false} ReplayAllSame(d: Dev, m: Irps)
    ensures ReplayAll(With(d, m)) == With(ReplayAll(d), m)
    ensures ReplayAsserts(With(d, m)) <==> ReplayAsserts(d)
    decreases |d.replay|
  {
    if d.replay != [] {
      assert ReplayOne(With(d, m)) == With(ReplayOne(d), m);
      ReplayAllSame(ReplayOne(d), m);
    }
  }

  lemma {:induction false} AbortAllSame(d: Dev, m: Irps)
    ensures AbortAll(With(d, m)) == With(AbortAll(d), m)
    ensures AbortAsserts(With(d, m)) <==> AbortAsserts(d)
    decreases |d.replay|
  {
    if d.replay != [] {
      assert AbortOne(With(d, m)) == With(AbortOne(d), m);
      AbortAllSame(AbortOne(d), m);
    }
  }

  lemma {:induction false} UnpauseSame(d: Dev, m: Irps, extra: nat)
    requires d.ringPresent ==> RingReady(d)
    ensures Unpause(With(d, m), extra) == With(Unpause(d, extra), m)
    ensures UnpauseAsserts(With(d, m), extra) <==> UnpauseAsserts(d, extra)
  {
    hide StartRequests, StartRequestsAsserts, RingSize;
    StartRequestsSame(d.(pauseCount := d.pauseCount - 1), m, extra);
  }

  lemma {:induction false} ConnectSame(d: Dev, m: Irps, n: int, pages: nat)
    requires RingSize(n) && n > 0
    ensures Connect(With(d, m), n, pages) == With(Connect(d, n, pages), m)
    ensures ReconnectAsserts(With(d, m), n, pages) <==> ReconnectAsserts(d, n, pages)
  {
    hide ReplayAll, ReplayAsserts;
    assert FreshRing(With(d, m), n, pages) == With(FreshRing(d, n, pages), m);
    ReplayAllSame(FreshRing(d, n, pages), m);
  }

  lemma {:induction false} TakeSame(d: Dev, m: Irps, extra: nat)
    requires Asserts(d, ADpcTake(extra))
    ensures Asserts(With(d, m), ADpcTake(extra)) && DpcTake(With(d, m), extra) == With(DpcTake(d, extra), m)
  {
    hide RingSize, Retire, StartNext;
    RetireSame(d, m);
    var e := Retire(d);
    StartNextSame(e, m, extra);
  }

  lemma {:induction false} RetireSame(d: Dev, m: Irps)
    requires Retirable(d)
    ensures Retirable(With(d, m)) && Retire(With(d, m)) == With(Retire(d), m) && RingReady(Retire(d))
  {
    hide RingSize, Without, IndexOf;
  }

  lemma {:induction false} StartNextSame(d: Dev, m: Irps, extra: nat)
    requires RingReady(d)
    ensures StartNext(With(d, m), extra) == With(StartNext(d, extra), m)
    ensures StartNextAsserts(With(d, m)) <==> StartNextAsserts(d)
  {
    var f := d.(sched := Flip(d.sched));
    assert With(d, m).(sched := Flip(d.sched)) == With(f, m);
    if f.sched.cur != [] {
      StartOneSame(f, m);
    }
    hide StartOne, RingSize;
  }

  lemma {:induction false} ReconnectSame(d: Dev, m: Irps, a: Action)
    requires (a.APowerUp? || a.AResume?) && Asserts(d, a)
    ensures Asserts(With(d, m), a) && Do(With(d, m), a) == With(Do(d, a), m)
  {
    hide Connect, Unpause, ReconnectAsserts, UnpauseAsserts;
    ConnectSame(d, m, a.n, a.pages);
    var c := Connect(d, a.n, a.pages);
    var u := if a.APowerUp? then c.(powered := true) else c.(suspended := false);
    UnpauseSame(u, m, a.extra);
  }

  lemma {:induction false} TakeStepSame(d: Dev, m: Irps, a: Action)
    requires a.ADpcTake? && Asserts(d, a)
    ensures Asserts(With(d, m), a) && Do(With(d, m), a) == With(Do(d, a), m)
  {
    TakeSame(d, m, a.extra);
    hide Asserts, DpcTake;
  }

  lemma {:induction false} ResumeOffSame(d: Dev, m: Irps)
    requires Asserts(d, AResumeOff)
    ensures Asserts(With(d, m), AResumeOff) && Do(With(d, m), AResumeOff) == With(Do(d, AResumeOff), m)
  {
    hide Unpause, UnpauseAsserts, RingSize;
    UnpauseSame(d.(suspended := false), m, 0);
  }

  lemma {:induction false} AbortSame(d: Dev, m: Irps)
    requires Asserts(d, AAbort)
    ensures Asserts(With(d, m), AAbort) && Do(With(d, m), AAbort) == With(Do(d, AAbort), m)
  {
    hide AbortAll, AbortAsserts;
    AbortAllSame(d, m);
  }

  lemma {:induction false} ConsumeSame(d: Dev, m: Irps)
    requires Asserts(d, AConsume)
    ensures Asserts(With(d, m), AConsume) && Do(With(d, m), AConsume) == With(Do(d, AConsume), m)
  {
    hide RingSize;
  }

  lemma {:induction false} AnswerSame(d: Dev, m: Irps, a: Action)
    requires a.AAnswer? && Asserts(d, a)
    ensures Asserts(With(d, m), a) && Do(With(d, m), a) == With(Do(d, a), m)
  {
    hide RingSize;
  }

  lemma {:induction false} PowerDownSame(d: Dev, m: Irps)
    requires Asserts(d, APowerDown)
    ensures Asserts(With(d, m), APowerDown) && Do(With(d, m), APowerDown) == With(Do(d, APowerDown), m)
  {
  }

  /** Steps of a few assignments, without an assertion. */
  predicate Plain(a: Action) {
    || a.ADpcEnter? || a.ADpcAgain? || a.ADpcExit? || a.APublish?
    || a.AClose? || a.ASuspend? || a.AConnectFails? || a.AConnectLost? || a.ADehibernate?
  }

  lemma {:induction false} PlainSame(d: Dev, m: Irps, a: Action)
    requires Plain(a)
    ensures Asserts(d, a) && Asserts(With(d, m), a) && Do(With(d, m), a) == With(Do(d, a), m)
  {
  }

  lemma {:induction false} StepSame(d: Dev, m: Irps, a: Action)
    requires Asserts(d, a) && !a.ASubmit? && !a.AFinish?
    ensures Asserts(With(d, m), a) && Do(With(d, m), a) == With(Do(d, a), m)
  {
    hide Asserts, Do;
    if a.APowerUp? || a.AResume? {
      ReconnectSame(d, m, a);
    } else if a.ADpcTake? {
      TakeStepSame(d, m, a);
    } else if a.AResumeOff? {
      ResumeOffSame(d, m);
    } else if a.AAbort? {
      AbortSame(d, m);
    } else if a.AConsume? {
      ConsumeSame(d, m);
    } else if a.AAnswer? {
      AnswerSame(d, m, a);
    } else if a.APowerDown? {
      PowerDownSame(d, m);
    } else {
      PlainSame(d, m, a);
    }
  }

  // ------------------------------------------------------------ the empty IRP

  function Rest(d: Dev, irp: nat): Dev {
    With(d, d.irps - {irp})
  }

  /** The IRP is pending, has never been completed, has no request, and everything else is as it should be. */
  ghost predicate Hanging(d: Dev, irp: nat) {
    && irp in d.irps && d.irps[irp].status == Pending && d.irps[irp].completions == 0
    && Inv(Rest(d, irp))
  }

  lemma NoneOf(d: Dev, irp: nat)
    requires Hanging(d, irp)
    ensures forall r :: r in d.All() ==> r.irp != irp
  {
    hide Places, OnRing, Granted, Conserved, Controlled;
    var f := Rest(d, irp);
    assert f.All() == d.All();
  }

  lemma {:induction false} SubmitSame(d: Dev, irp: nat, a: Action)
    requires a.ASubmit? && a.irp != irp && irp in d.irps && Asserts(Rest(d, irp), a)
    ensures Asserts(d, a) && Rest(Do(d, a), irp) == Do(Rest(d, irp), a) && irp in Do(d, a).irps
    ensures Do(d, a).irps[irp] == d.irps[irp]
  {
    hide StartRequests, StartRequestsAsserts, EnqueueAll, EnqueueAsserts, NewIrp, MarkInitialised, RingSize;
    var f, q := Rest(d, irp), a.q;
    var e, g := Accept(d, a.irp, a.size, q), Accept(f, a.irp, a.size, q);
    assert e.irps - {irp} == g.irps;
    assert g == With(e, g.irps);
    EnqueueAllSame(e, g.irps, q);
    StartRequestsSame(EnqueueAll(e, q), g.irps, a.extra);
    StartRequestsFrame(EnqueueAll(e, q), a.extra);
  }

  lemma {:induction false} FinishSame(d: Dev, irp: nat, k: nat)
    requires irp in d.irps && Asserts(Rest(d, irp), AFinish(k))
    ensures Asserts(d, AFinish(k)) && Rest(FinishOne(d, k), irp) == FinishOne(Rest(d, irp), k)
    ensures irp in FinishOne(d, k).irps && FinishOne(d, k).irps[irp] == d.irps[irp]
  {
    hide CompleteInIrp, Without;
    var r := d.done[k];
    var c := CompleteInIrp(d.irps[r.irp], r.bytes, d.result[r.id]);
    assert d.irps[r.irp := c] - {irp} == (d.irps - {irp})[r.irp := c];
  }

  lemma {:induction false} OtherSame(d: Dev, irp: nat, a: Action)
    requires irp in d.irps && Asserts(Rest(d, irp), a) && !a.ASubmit? && !a.AFinish?
    ensures Asserts(d, a) && Rest(Do(d, a), irp) == Do(Rest(d, irp), a) && Do(d, a).irps == d.irps
  {
    hide Asserts, Do;
    var f := Rest(d, irp);
    StepSame(f, d.irps, a);
    assert With(f, d.irps) == d;
    IrpsSame(f, a);
    assert Do(d, a) == With(Do(f, a), d.irps);
  }

  /** Only submission and completion change IRPs. */
  lemma {:induction false} IrpsSame(d: Dev, a: Action)
    requires Asserts(d, a) && !a.ASubmit? && !a.AFinish?
    ensures Do(d, a).irps == d.irps
  {
    StepSame(d, d.irps, a);
    assert With(d, d.irps) == d;
  }

  /** No step gets it off the ground. */
  lemma {:induction false} HangingStep(d: Dev, a: Action, irp: nat)
    requires Hanging(d, irp) && Enabled(d, a)
    ensures Asserts(d, a) && Hanging(Do(d, a), irp)
  {
    hide Inv, Asserts, Do, Enabled, Rest;
    var f := Rest(d, irp);
    EnabledRest(d, a, irp);
    NoAssertionFires(f, a);
    StepKeepsInv(f, a);
    if a.ASubmit? {
      NotThisOne(d, a, irp);
      SubmitSame(d, irp, a);
    } else if a.AFinish? {
      FinishSame(d, irp, a.k);
      FinishDo(d, f, a);
    } else {
      OtherSame(d, irp, a);
    }
  }

  lemma EnabledRest(d: Dev, a: Action, irp: nat)
    requires Enabled(d, a)
    ensures Enabled(Rest(d, irp), a)
  {
  }

  lemma NotThisOne(d: Dev, a: Action, irp: nat)
    requires irp in d.irps && a.ASubmit? && Enabled(d, a)
    ensures a.irp != irp
  {
  }

  lemma FinishDo(d: Dev, f: Dev, a: Action)
    requires a.AFinish? && Asserts(d, a) && Asserts(f, a)
    ensures Do(d, a) == FinishOne(d, a.k) && Do(f, a) == FinishOne(f, a.k)
  {
  }

  /** What follows on a state, step by step; compare IsRun. */
  ghost predicate Follows(s: seq<Dev>, a: seq<Action>) {
    |s| == |a| + 1 && forall i :: 0 <= i < |a| ==> Step(s[i], a[i], s[i + 1])
  }

  lemma {:induction false} StartsHanging(d: Dev, irp: nat, size: Extent, extra: nat)
    requires Inv(d) && irp !in d.irps
    ensures (d.ringPresent ==> RingReady(d)) && Hanging(Submit(d, irp, size, [], extra), irp)
  {
    hide Inv, Controlled, Core, Accept;
    RingOf(d);
    var e := Accept(d, irp, size, []);
    assert e == With(d, d.irps[irp := NewIrp(size, [])]) by { AcceptNothing(d, irp, size); }
    assert EnqueueAll(e, []) == e;
    StartRequestsSame(d, e.irps, extra);
    StartRequestsFrame(d, extra);
    StartKeepsInv(d, extra);
    hide StartRequests;
    assert e.irps - {irp} == d.irps;
  }

  lemma AcceptNothing(d: Dev, irp: nat, size: Extent)
    ensures Accept(d, irp, size, []) == With(d, d.irps[irp := NewIrp(size, [])])
  {
    hide NewIrp;
  }

  lemma {:induction false} StartKeepsInv(d: Dev, extra: nat)
    requires Inv(d)
    ensures (d.ringPresent ==> RingReady(d)) && Inv(StartRequests(d, extra))
  {
    RingOf(d);
    CoreOf(d);
    hide Places, OnRing, Granted, Conserved, IrpsRight, SameBooks, StartRequests, Moving, Published, Controlled;
    StartRequestsKeeps(d, extra);
    BooksKept(d, StartRequests(d, extra));
  }

  /** An IRP submitted with no requests is pending in every state that follows, whatever the device, the back end and
      other submissions do; it is never completed, and no request is there that could complete it. */
  lemma {:induction false} EmptySubmitHangs(d: Dev, irp: nat, size: Extent, extra: nat, s: seq<Dev>, a: seq<Action>,
                                            i: nat)
    requires Inv(d) && irp !in d.irps && (d.ringPresent ==> RingReady(d))
    requires Follows(s, a) && s[0] == Submit(d, irp, size, [], extra) && i < |s|
    ensures irp in s[i].irps && s[i].irps[irp].status == Pending && s[i].irps[irp].completions == 0
    ensures forall r :: r in s[i].All() ==> r.irp != irp
  {
    StaysHanging(d, irp, size, extra, s, a, i);
    NoneOf(s[i], irp);
  }

  lemma {:induction false} StaysHanging(d: Dev, irp: nat, size: Extent, extra: nat, s: seq<Dev>, a: seq<Action>, i: nat)
    requires Inv(d) && irp !in d.irps && (d.ringPresent ==> RingReady(d))
    requires Follows(s, a) && s[0] == Submit(d, irp, size, [], extra) && i < |s|
    ensures Hanging(s[i], irp)
  {
    hide Inv, Submit, Enabled, Asserts, Do, Hanging;
    if i == 0 {
      StartsHanging(d, irp, size, extra);
    } else {
      StaysHanging(d, irp, size, extra, s, a, i - 1);
      assert Step(s[i - 1], a[i - 1], s[i]);
      HangingStep(s[i - 1], a[i - 1], irp);
    }
  }
}
