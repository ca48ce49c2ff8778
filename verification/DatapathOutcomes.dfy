/** How IRPs end, in every run of the datapath (scsifilt/rings.c, datapath.c). */
module DatapathOutcomes {
  import opened Blkif
  import opened SharedRing
  import opened Elevator
  import opened Measures
  import opened Datapath
  import opened DatapathSafety
  import opened DatapathSteps
  import opened DatapathRuns
  import opened DatapathResults

  // ------------------------------------------------------------ an IRP and its answers

  /** No request is accepted twice; so each is on exactly one list, or was finished exactly once. */
  lemma AcceptedOnce(s: seq<Dev>, a: seq<Action>, i: nat, r: Request)
    requires IsRun(s, a) && i < |s|
    ensures s[i].accepted[r] <= 1
  {
    hide IsRun, Told, Waiting, Recorded, Concluded, LastAnswers;
    EverySourced(s, a, i);
  }

  lemma {:induction false} FinishedIs(d: Dev, irp: nat, r: Request)
    requires Inv(d) && irp in d.irps && d.irps[irp].status != Pending && r in d.accepted && r.irp == irp
    requires d.irps[irp].status == Pending <==> exists x :: x in d.All() && x.irp == irp
    ensures exists x :: x in d.finished && x.req == r
  {
    hide Places, OnRing, Granted, IrpsRight, Controlled, Dev.All;
    RetiredIs(d.finished, r);
  }

  lemma {:induction false} WasAccepted(d: Dev, x: Finish)
    requires Inv(d) && x in d.finished
    ensures x.req in d.accepted
  {
    hide Places, OnRing, Granted, IrpsRight, Controlled, Dev.All;
    var k :| 0 <= k < |d.finished| && d.finished[k] == x;
    RetiredOf(d.finished, k);
  }

  /** An IRP that has been completed is a success exactly if the last result given to each of its requests is OKAY:
      the back end has answered every one of them, for none is the last answer an error, and none was aborted. */
  lemma {:induction false} IrpAnswers(s: seq<Dev>, a: seq<Action>, i: nat, irp: nat)
    requires IsRun(s, a) && i < |s| && irp in s[i].irps && s[i].irps[irp].status != Pending
    ensures s[i].irps[irp].status == Success <==>
      forall r :: r in s[i].accepted && r.irp == irp ==> Settled(s, a, i, r, OKAY)
  {
    assert |s| == |a| + 1;
    hide Inv, Asserts, Do, Settled, LastAnswers, IsRun;
    DatapathRuns.EveryRun(s, a, i);
    IrpCompletedOnce(s, a, i, irp);
    EverySourced(s, a, i);
    hide Told, Waiting, Recorded, Single;
    var d := s[i];
    if d.irps[irp].status == Success {
      forall r | r in d.accepted && r.irp == irp ensures Settled(s, a, i, r, OKAY) {
        FinishedIs(d, irp, r);
        SettledIff(s, a, i, r, OKAY);
      }
    } else {
      var k :| 0 <= k < |d.finished| && d.finished[k].req.irp == irp && d.finished[k].result != OKAY;
      var x := d.finished[k];
      WasAccepted(d, x);
      assert x in d.finished;
      SettledIff(s, a, i, x.req, OKAY);
    }
  }

  /** An IRP is pending as long as one of its requests is on a list, and is completed once; then it is a success exactly
      if the last result given to each of its requests is OKAY, and Information is its sectors times the sector size. */
  lemma {:induction false} IrpOutcome(s: seq<Dev>, a: seq<Action>, i: nat, irp: nat)
    requires IsRun(s, a) && i < |s| && irp in s[i].irps
    ensures var p := s[i].irps[irp];
      && (p.status == Pending <==> exists r :: r in s[i].All() && r.irp == irp)
      && p.completions == (if p.status == Pending then 0 else 1)
      && (p.status != Pending ==>
            (p.status == Success <==>
               forall r :: r in s[i].accepted && r.irp == irp ==> Settled(s, a, i, r, OKAY)))
      && (p.status == Success ==> p.information == p.size.sectors * p.size.sectorSize)
  {
    IrpCompletedOnce(s, a, i, irp);
    hide IsRun, Settled, AllOkay, Dev.All;
    if s[i].irps[irp].status != Pending {
      IrpAnswers(s, a, i, irp);
    }
  }

  // ------------------------------------------------------------ aborted requests

  /** The request has been handed over to be completed, or has been completed. */
  ghost predicate Over(d: Dev, r: Request) {
    r in d.done || exists x :: x in d.finished && x.req == r
  }

  lemma WithoutKeeps(q: seq<Request>, k: nat, r: Request)
    requires k < |q| && r in q && r != q[k]
    ensures r in Without(q, k)
  {
    var j :| 0 <= j < |q| && q[j] == r;
    assert Without(q, k)[if j < k then j else j - 1] == r;
  }

  /** What is over stays over. */
  lemma {:induction false} OverStep(d: Dev, a: Action, r: Request)
    requires Inv(d) && Enabled(d, a) && Asserts(d, a) && Over(d, r)
    ensures Over(Do(d, a), r)
  {
    hide Inv, Asserts, Do, Waiting;
    if a.ADpcTake? {
      TakeDo(d, a);
      TakeDone(d, a.extra);
    } else if a.AFinish? {
      FinishOver(d, a, r);
    } else if a.AAbort? {
      AbortDo(d, a);
      CoreOf(d);
      AbortResults(d);
    } else {
      SilentStep(d, a);
    }
  }

  lemma {:induction false} FinishOver(d: Dev, a: Action, r: Request)
    requires a.AFinish? && Asserts(d, a) && Over(d, r)
    ensures Over(Do(d, a), r)
  {
    hide Without, CompleteInIrp;
    var e, x := Do(d, a), Finish(d.done[a.k], d.result[d.done[a.k].id]);
    assert x in e.finished;
    if r in d.done && r != x.req {
      WithoutKeeps(d.done, a.k, r);
    }
  }

  /** Once over, a request is given no other result. */
  lemma {:induction false} OverAnswer(d: Dev, a: Action, r: Request)
    requires Inv(d) && Enabled(d, a) && Single(d.accepted) && Over(d, r)
    ensures r !in NewAnswers(d, a)
  {
    hide Inv, Enabled, Single, NewAnswers;
    NewElsewhere(d, a);
  }

  lemma {:induction false} AbortedStays(s: seq<Dev>, a: seq<Action>, j: nat, i: nat, r: Request)
    requires IsRun(s, a) && j < i < |s| && a[j].AAbort? && r in s[j].replay
    ensures Over(s[i], r) && r in LastAnswers(s, a, i) && LastAnswers(s, a, i)[r] == ERROR
    decreases i
  {
    hide Inv, Asserts, Do, Enabled, Over, Sourced;
    DatapathRuns.EveryRun(s, a, i - 1);
    assert Step(s[i - 1], a[i - 1], s[i]);
    if j == i - 1 {
      AbortOver(s[j], a[j], r);
    } else {
      AbortedStays(s, a, j, i - 1, r);
      OverStep(s[i - 1], a[i - 1], r);
      EverySourced(s, a, i - 1);
      OverAnswered(s[i - 1], a[i - 1], r, LastAnswers(s, a, i - 1));
    }
  }

  lemma OverAnswered(d: Dev, a: Action, r: Request, c: Answers)
    requires Inv(d) && Enabled(d, a) && Sourced(d, c) && Over(d, r)
    ensures r !in NewAnswers(d, a)
  {
    hide Inv, Enabled, NewAnswers, Over, Told, Recorded, Concluded, Waiting;
    OverAnswer(d, a, r);
  }

  lemma {:induction false} AbortOver(d: Dev, a: Action, r: Request)
    requires Inv(d) && a.AAbort? && Asserts(d, a) && r in d.replay
    ensures Over(Do(d, a), r) && r in NewAnswers(d, a) && NewAnswers(d, a)[r] == ERROR
  {
    hide Inv, Asserts, Do, Core, AbortAll;
    AbortDo(d, a);
    CoreOf(d);
    AbortResults(d);
    assert Do(d, a).done == d.done + d.replay;
  }

  lemma {:induction false} OverIsKnown(d: Dev, r: Request)
    requires Inv(d) && Over(d, r)
    ensures r in d.accepted && r.irp in d.irps
  {
    AcceptedKnown(d);
    hide Places, OnRing, Granted, IrpsRight, Controlled;
    if r in d.done {
      FourLists(d.sched.Queued(), d.inflight, d.replay, d.done);
    } else {
      var x :| x in d.finished && x.req == r;
      WasAccepted(d, x);
    }
  }

  /** An IRP with a request that was aborted never succeeds. */
  lemma {:induction false} AbortedNeverSucceeds(s: seq<Dev>, a: seq<Action>, j: nat, i: nat, r: Request)
    requires IsRun(s, a) && j < i < |s| && a[j].AAbort? && r in s[j].replay
    ensures r.irp in s[i].irps && s[i].irps[r.irp].status != Success
  {
    AbortedStays(s, a, j, i, r);
    hide Inv, Asserts, Do, Settled, LastAnswers, IsRun, Over;
    DatapathRuns.EveryRun(s, a, i);
    OverIsKnown(s[i], r);
    if s[i].irps[r.irp].status == Success {
      IrpAnswers(s, a, i, r.irp);
      SettledIff(s, a, i, r, OKAY);
      assert false;
    }
  }

  // ------------------------------------------------------------ a submission and its answers

  /** No step but a submission accepts requests. */
  lemma {:induction false} AcceptedStep(d: Dev, a: Action)
    requires Inv(d) && Enabled(d, a) && Asserts(d, a)
    ensures var e := Do(d, a);
      && e.accepted == d.accepted + (if a.ASubmit? then multiset(a.q) else multiset{})
      && (!a.AConsume? ==> e.held <= d.held)
  {
    hide Inv, Asserts, Do, Waiting;
    if a.ADpcTake? {
      TakeDo(d, a);
      TakeDone(d, a.extra);
    } else if a.AFinish? {
      FinishAccepts(d, a);
    } else if a.AAbort? {
      AbortDo(d, a);
      CoreOf(d);
      AbortResults(d);
    } else {
      SilentStep(d, a);
    }
  }

  lemma FinishAccepts(d: Dev, a: Action)
    requires a.AFinish? && Asserts(d, a)
    ensures Do(d, a).accepted == d.accepted && Do(d, a).held == d.held
  {
    hide Without, CompleteInIrp;
  }

  /** The requests of an IRP are those it was submitted with. */
  lemma {:induction false} SubmittedAre(s: seq<Dev>, a: seq<Action>, j: nat, i: nat, r: Request)
    requires IsRun(s, a) && j < i < |s| && a[j].ASubmit? && r.irp == a[j].irp
    ensures s[i].accepted[r] == multiset(a[j].q)[r]
    decreases i
  {
    hide Inv, Asserts, Do, Enabled;
    DatapathRuns.EveryRun(s, a, i - 1);
    assert Step(s[i - 1], a[i - 1], s[i]);
    AcceptedStep(s[i - 1], a[i - 1]);
    if j == i - 1 {
      AcceptedKnown(s[j]);
      NewIrpId(s[j], a[j]);
    } else {
      SubmittedAre(s, a, j, i - 1, r);
      if a[i - 1].ASubmit? {
        SizeKept(s, a, j, i - 1);
        NewIrpId(s[i - 1], a[i - 1]);
        OthersSubmitted(s[i - 1], a[i - 1], r);
      }
    }
  }

  lemma NewIrpId(d: Dev, a: Action)
    requires a.ASubmit? && Enabled(d, a)
    ensures a.irp !in d.irps
  {
  }

  lemma OthersSubmitted(d: Dev, a: Action, r: Request)
    requires a.ASubmit? && Enabled(d, a) && r.irp != a.irp
    ensures r !in multiset(a.q)
  {
  }

  /** An IRP that was submitted with the requests `q` and has been completed is a success exactly if the last result
      given to each of `q` is OKAY. */
  lemma {:induction false} SubmittedAnswers(s: seq<Dev>, a: seq<Action>, j: nat, i: nat)
    requires IsRun(s, a) && j < i < |s| && a[j].ASubmit?
    ensures a[j].irp in s[i].irps
    ensures s[i].irps[a[j].irp].status != Pending ==>
      (s[i].irps[a[j].irp].status == Success <==> forall r :: r in a[j].q ==> Settled(s, a, i, r, OKAY))
  {
    var irp, q := a[j].irp, a[j].q;
    SizeKept(s, a, j, i);
    assert Step(s[j], a[j], s[j + 1]);
    assert forall r :: r in q ==> r.irp == irp;
    hide Settled, Enabled, Inv;
    if s[i].irps[irp].status != Pending {
      IrpAnswers(s, a, i, irp);
      forall r: Request | r.irp == irp ensures r in s[i].accepted <==> r in q {
        SubmittedAre(s, a, j, i, r);
      }
    }
  }

  // ------------------------------------------------------------ what the back end consumes

  /** Step `a` is the back end's taking `r` off the ring. */
  ghost predicate Consumes(d: Dev, a: Action, r: Request) {
    a.AConsume? && d.ring.Valid() && d.ring.Requests() != [] && d.ring.Requests()[0] == r
  }

  ghost predicate ConsumedBefore(s: seq<Dev>, a: seq<Action>, i: nat, r: Request)
    requires i < |s| && i <= |a|
  {
    exists k :: 0 <= k < i && Consumes(s[k], a[k], r)
  }

  lemma {:induction false} ConsumeStep(d: Dev, a: Action)
    requires Inv(d) && a.AConsume? && Enabled(d, a) && Asserts(d, a)
    ensures d.ring.Valid() && d.ring.Requests() != [] && d.ring.Requests()[0] in d.inflight
    ensures Do(d, a).held == d.held + multiset{d.ring.Requests()[0]}
  {
    hide Places, Granted, IrpsRight, Conserved, Controlled, Moving;
    TakeRequestRemoves(d.ring);
    assert d.ring.Requests()[0] in multiset(d.inflight);
  }

  /** What the back end holds it has taken off the ring. */
  lemma {:induction false} HeldConsumed(s: seq<Dev>, a: seq<Action>, i: nat, r: Request)
    requires IsRun(s, a) && i < |s| && r in s[i].held
    ensures ConsumedBefore(s, a, i, r)
  {
    hide Inv, Asserts, Do, Enabled, Consumes;
    if i > 0 {
      DatapathRuns.EveryRun(s, a, i - 1);
      assert Step(s[i - 1], a[i - 1], s[i]);
      if r in s[i - 1].held {
        HeldConsumed(s, a, i - 1, r);
      } else {
        HeldNow(s[i - 1], a[i - 1], r);
      }
    }
  }

  lemma {:induction false} HeldNow(d: Dev, a: Action, r: Request)
    requires Inv(d) && Enabled(d, a) && Asserts(d, a) && r !in d.held && r in Do(d, a).held
    ensures Consumes(d, a, r)
  {
    hide Inv, Asserts, Do, Enabled, SharedRing.Ring.Valid, SharedRing.Ring.Requests;
    if a.AConsume? {
      ConsumeStep(d, a);
    } else {
      AcceptedStep(d, a);
      assert false;
    }
  }

  /** In every run: what the back end takes off the ring for an IRP is one of the requests the IRP was submitted with;
      what it answers, it has taken off the ring; and if the IRP succeeds it has taken, and answered with OKAY, every
      one of them. */
  lemma {:induction false} SubmissionServed(s: seq<Dev>, a: seq<Action>, j: nat, i: nat)
    requires IsRun(s, a) && j < i < |s| && a[j].ASubmit?
    ensures forall k, r :: j < k < i && Consumes(s[k], a[k], r) && r.irp == a[j].irp ==> r in a[j].q
    ensures a[j].irp in s[i].irps
    ensures s[i].irps[a[j].irp].status == Success ==>
      forall r :: r in a[j].q ==>
        exists m :: 0 <= m < i && a[m] == AAnswer(r, OKAY) && ConsumedBefore(s, a, m, r)
  {
    hide Inv, Asserts, Do, Enabled, Consumes, ConsumedBefore, Settled;
    forall k, r | j < k < i && Consumes(s[k], a[k], r) && r.irp == a[j].irp ensures r in a[j].q {
      ConsumedIsSubmitted(s, a, j, k, r);
    }
    SubmittedAnswers(s, a, j, i);
    if s[i].irps[a[j].irp].status == Success {
      forall r | r in a[j].q
        ensures exists m :: 0 <= m < i && a[m] == AAnswer(r, OKAY) && ConsumedBefore(s, a, m, r)
      {
        AnswerFound(s, a, i, r);
      }
    }
  }

  lemma {:induction false} AnswerFound(s: seq<Dev>, a: seq<Action>, i: nat, r: Request)
    requires IsRun(s, a) && i < |s| && Settled(s, a, i, r, OKAY)
    ensures exists m :: 0 <= m < i && a[m] == AAnswer(r, OKAY) && ConsumedBefore(s, a, m, r)
  {
    hide Inv, Asserts, Do, ConsumedBefore;
    var m: nat :| SettledBy(s, a, i, r, OKAY, m);
    assert Step(s[m], a[m], s[m + 1]);
    HeldConsumed(s, a, m, r);
  }

  lemma {:induction false} ConsumedIsSubmitted(s: seq<Dev>, a: seq<Action>, j: nat, k: nat, r: Request)
    requires IsRun(s, a) && j < k < |a| && a[j].ASubmit? && Consumes(s[k], a[k], r) && r.irp == a[j].irp
    ensures r in a[j].q
  {
    DatapathRuns.EveryRun(s, a, k);
    assert Step(s[k], a[k], s[k + 1]);
    ConsumeStep(s[k], a[k]);
    SubmittedAre(s, a, j, k, r);
    hide IsRun, Asserts, Do, Enabled;
    InflightAccepted(s[k], r);
  }

  lemma InflightAccepted(d: Dev, r: Request)
    requires Inv(d) && r in d.inflight
    ensures r in d.accepted
  {
    hide Places, OnRing, Granted, IrpsRight, Controlled;
    FourLists(d.sched.Queued(), d.inflight, d.replay, d.done);
  }
}
