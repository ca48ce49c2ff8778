/** Where the results of requests come from (scsifilt/rings.c, datapath.c).

    The only sources are the answers of the back end and the abort of requests that
    wait for replay.  A cause is a request with a result; the causes of a run grow
    with every answer and every abort.
  */
module DatapathResults {
  import opened Blkif
  import opened RingIndex
  import opened SharedRing
  import opened Elevator
  import opened Measures
  import opened Datapath
  import opened DatapathSafety
  import opened DatapathSteps
  import opened DatapathRuns

  type Answers = map<Request, int>

  /** The results that a step gives. */
  function NewAnswers(d: Dev, a: Action): Answers {
    match a
    case AAnswer(r, status) => map[r := status]
    case AAbort => map r | r in d.replay :: ERROR
    case _ => map[]
  }

  /** The last result given to each request in the first `i` steps. */
  function LastAnswers(s: seq<Dev>, a: seq<Action>, i: nat): Answers
    requires i < |s| && i <= |a|
  {
    if i == 0 then map[] else LastAnswers(s, a, i - 1) + NewAnswers(s[i - 1], a[i - 1])
  }

  /** A step gives the request `r` the result `v`: an answer of the back end, or the abort of a request that
      waits for replay, with an error. */
  ghost predicate Settles(d: Dev, a: Action, r: Request, v: int) {
    a == AAnswer(r, v) || (a.AAbort? && r in d.replay && v == ERROR)
  }

  /** Step `j` is the last of the first `i` that gives `r` a result, and the result is `v`. */
  ghost predicate SettledBy(s: seq<Dev>, a: seq<Action>, i: nat, r: Request, v: int, j: nat)
    requires i < |s| && i <= |a|
  {
    j < i && Settles(s[j], a[j], r, v) && forall k, w :: j < k < i ==> !Settles(s[k], a[k], r, w)
  }

  /** The last result given to `r` in the first `i` steps is `v`. */
  ghost predicate Settled(s: seq<Dev>, a: seq<Action>, i: nat, r: Request, v: int)
    requires i < |s| && i <= |a|
  {
    exists j :: SettledBy(s, a, i, r, v, j)
  }

  lemma {:induction false} SettledIff(s: seq<Dev>, a: seq<Action>, i: nat, r: Request, v: int)
    requires i < |s| && i <= |a|
    ensures Settled(s, a, i, r, v) <==> r in LastAnswers(s, a, i) && LastAnswers(s, a, i)[r] == v
  {
    if i > 0 {
      var n := NewAnswers(s[i - 1], a[i - 1]);
      if r in n {
        assert Settles(s[i - 1], a[i - 1], r, n[r]);
        assert SettledBy(s, a, i, r, n[r], i - 1);
      } else {
        SettledIff(s, a, i - 1, r, v);
        assert forall j :: SettledBy(s, a, i, r, v, j) ==> SettledBy(s, a, i - 1, r, v, j);
        if Settled(s, a, i - 1, r, v) {
          var j :| SettledBy(s, a, i - 1, r, v, j);
          assert SettledBy(s, a, i, r, v, j);
        }
      }
    }
  }

  /** The responses that have not been taken. */
  ghost function Waiting(d: Dev): seq<Datapath.Response> {
    if d.live && d.ring.Valid() then d.ring.Responses() else []
  }

  /** Every one of these carries the last result given to its request. */
  ghost predicate Told(q: seq<Datapath.Response>, c: Answers) {
    forall p :: p in q ==> p.sfr in c && c[p.sfr] == p.status
  }

  /** So does every recorded result. */
  ghost predicate Recorded(done: seq<Request>, result: map<nat, int>, c: Answers) {
    forall r :: r in done ==> r.id in result && r in c && c[r] == result[r.id]
  }

  /** So does every completed request. */
  ghost predicate Concluded(f: seq<Finish>, c: Answers) {
    forall x :: x in f ==> x.req in c && c[x.req] == x.result
  }

  /** No request was accepted twice. */
  ghost predicate Single(m: multiset<Request>) {
    forall r :: m[r] <= 1
  }

  ghost predicate Sourced(d: Dev, c: Answers) {
    && Single(d.accepted)
    && Told(Waiting(d), c)
    && Recorded(d.done, d.result, c)
    && Concluded(d.finished, c)
  }

  // ------------------------------------------------------------ what changes results

  /** Steps at which no result is recorded and no request finished. */
  predicate Silent(a: Action) {
    !a.ADpcTake? && !a.AFinish? && !a.AAbort?
  }

  /** A step that records and finishes nothing, and what it does to the other histories. */
  ghost predicate Silence(d: Dev, a: Action, e: Dev) {
    && e.done == d.done && e.result == d.result && e.finished == d.finished
    && e.accepted == d.accepted + (if a.ASubmit? then multiset(a.q) else multiset{})
    && (!a.AConsume? ==> e.held <= d.held)
  }

  lemma {:induction false} SilentStep(d: Dev, a: Action)
    requires Asserts(d, a) && Silent(a)
    ensures Silence(d, a, Do(d, a))
  {
    hide Do, Asserts, Silence;
    if a.ASubmit? {
      SubmitSilence(d, a);
    } else if a.APowerUp? || a.AResume? || a.AResumeOff? {
      UnpauseSilence(d, a);
    } else {
      OtherSilence(d, a);
    }
  }

  lemma {:induction false} SubmitSilence(d: Dev, a: Action)
    requires Asserts(d, a) && a.ASubmit?
    ensures Silence(d, a, Do(d, a))
  {
    hide StartRequests, EnqueueAsserts, StartRequestsAsserts;
    StartRequestsFrame(EnqueueAll(Accept(d, a.irp, a.size, a.q), a.q), a.extra);
  }

  lemma {:induction false} UnpauseSilence(d: Dev, a: Action)
    requires Asserts(d, a) && (a.APowerUp? || a.AResume? || a.AResumeOff?)
    ensures Silence(d, a, Do(d, a))
  {
    hide Connect, Unpause, UnpauseAsserts, ReconnectAsserts;
    match a
    case APowerUp(n, pages, extra) => ReconnectFrame(d, n, pages, true, Connect(d, n, pages).suspended, extra);
    case AResume(n, pages, extra) => ReconnectFrame(d, n, pages, Connect(d, n, pages).powered, false, extra);
    case AResumeOff => UnpauseFrame(d.(suspended := false), 0);
  }

  lemma {:induction false} OtherSilence(d: Dev, a: Action)
    requires Asserts(d, a) && Silent(a) && !a.ASubmit? && !a.APowerUp? && !a.AResume? && !a.AResumeOff?
    ensures Silence(d, a, Do(d, a))
  {
  }

  /** Requests on different lists have different addresses. */
  lemma Apart(d: Dev, x: Request, y: Request)
    requires Places(d) && x in d.done && (y in d.inflight || y in d.replay)
    ensures x.id != y.id
  {
    hide Sweeping, Bounded, Answered, StateOf;
    FourLists(d.sched.Queued(), d.inflight, d.replay, d.done);
    if x == y {
      OnTwoLists(d, x);
      assert false;
    }
  }

  lemma OnTwoLists(d: Dev, x: Request)
    requires x in d.done && (x in d.inflight || x in d.replay)
    ensures multiset(d.All())[x] >= 2
  {
    FourLists(d.sched.Queued(), d.inflight, d.replay, d.done);
    assert multiset(d.done)[x] >= 1 && multiset(d.inflight)[x] + multiset(d.replay)[x] >= 1;
  }

  lemma Twice(q: seq<Request>, i: nat, j: nat)
    requires i < j < |q| && q[i] == q[j]
    ensures multiset(q)[q[i]] >= 2
  {
    assert q == q[..i] + [q[i]] + q[i + 1..j] + [q[j]] + q[j + 1..];
  }

  lemma DoneApart(d: Dev, i: nat, j: nat)
    requires Places(d) && i < j < |d.done|
    ensures d.done[i].id != d.done[j].id
  {
    hide Sweeping, Bounded, Answered, StateOf;
    FourLists(d.sched.Queued(), d.inflight, d.replay, d.done);
    var m := multiset(d.All());
    assert d.done[i] in m && d.done[j] in m;
    if d.done[i] == d.done[j] {
      Twice(d.done, i, j);
      assert false;
    }
  }

  /** Taking a response records its status for its request, and nothing else. */
  lemma {:induction false} TakeDone(d: Dev, extra: nat)
    requires Inv(d) && Enabled(d, ADpcTake(extra)) && Asserts(d, ADpcTake(extra))
    ensures Waiting(d) != []
    ensures var e, p := DpcTake(d, extra), Waiting(d)[0];
      && e.done == d.done + [p.sfr] && p.sfr in d.inflight
      && e.result == d.result[p.sfr.id := p.status] && e.finished == d.finished
      && e.accepted == d.accepted && e.held == d.held
  {
    hide Places, Granted, IrpsRight, Conserved, Controlled, Moving, Retire, StartNext;
    ResponseIsInflight(d);
    TakeResponseRemoves(d.ring);
    RetireRecords(d, Waiting(d)[0]);
    StartNextDone(Retire(d), extra);
  }

  /** Retiring records the status of the response. */
  lemma RetireRecords(d: Dev, p: Datapath.Response)
    requires RingReady(d) && TakeResponse(d.ring).0 == Rsp(p) && p.sfr in d.inflight
    ensures var e := Retire(d);
      && RingReady(e) && e.done == d.done + [p.sfr] && e.result == d.result[p.sfr.id := p.status]
      && e.finished == d.finished && e.accepted == d.accepted && e.held == d.held
  {
    hide IndexOf, Without, RingSize;
  }

  lemma StartNextDone(d: Dev, extra: nat)
    requires RingReady(d)
    ensures Starts(d, StartNext(d, extra))
  {
  }

  lemma {:induction false} AbortOneResults(d: Dev)
    requires Core(d) && d.replay != []
    ensures var x, f := d.replay[0], AbortOne(d);
      && Core(f) && f.replay == d.replay[1..] && f.done == d.done + [x] && f.finished == d.finished
      && f.accepted == d.accepted && f.held == d.held
      && f.result == d.result[x.id := ERROR]
      && (forall r :: r in d.done ==> r.id != x.id)
  {
    AbortOneKeeps(d);
    AbortRecords(d);
    hide OnRing, Granted, AbortOne, Places;
    forall r | r in d.done ensures r.id != d.replay[0].id {
      Apart(d, r, d.replay[0]);
    }
  }

  /** Aborting a request records an error. */
  lemma AbortRecords(d: Dev)
    requires d.replay != []
    ensures var x, f := d.replay[0], AbortOne(d);
      && f.replay == d.replay[1..] && f.done == d.done + [x] && f.finished == d.finished
      && f.accepted == d.accepted && f.held == d.held && f.result == d.result[x.id := ERROR]
  {
  }

  /** An abort hands the requests that waited for replay over, in order and behind those there already, each with an
      error; other results stay. */
  lemma {:induction false} AbortResults(d: Dev)
    requires Core(d)
    ensures var e := AbortAll(d);
      && e.done == d.done + d.replay && e.replay == [] && e.finished == d.finished
      && e.accepted == d.accepted && e.held == d.held
      && (forall r :: r in d.replay ==> r.id in e.result && e.result[r.id] == ERROR != OKAY)
      && (forall r :: r in d.done && r.id in d.result ==> r.id in e.result && e.result[r.id] == d.result[r.id])
    decreases |d.replay|
  {
    hide Core, AbortOne;
    if d.replay == [] {
      assert d.done + d.replay == d.done;
    } else {
      var x, t, f := d.replay[0], d.replay[1..], AbortOne(d);
      AbortOneResults(d);
      AbortResults(f);
      assert d.replay == [x] + t;
      assert d.done + [x] + t == d.done + d.replay;
      assert x in f.done;
    }
  }

  // ------------------------------------------------------------ steps

  lemma {:induction false} StartAllWaiting(d: Dev, extra: nat)
    requires Core(d) && d.live
    ensures Waiting(StartAll(d, extra)) == Waiting(d)
    decreases |d.sched.Queued()|
  {
    hide Places, Granted, CanGrant;
    var f := d.(sched := Flip(d.sched));
    if d.ring.Full() || f.sched.cur == [] || !CanGrant(f, f.sched.cur[0], extra) {
      PushRequestsPublishes(d.ring);
    } else {
      StartTurn(d);
      PutRequestAppends(d.ring, f.sched.cur[0]);
      StartAllWaiting(StartOne(f), extra);
    }
  }

  lemma {:induction false} StartRequestsWaiting(d: Dev, extra: nat)
    requires Core(d) && Controlled(d)
    ensures d.ringPresent ==> RingReady(d)
    ensures Waiting(StartRequests(d, extra)) == Waiting(d)
  {
    hide Places, Granted, SharedRing.Ring.Valid, SharedRing.Ring.Responses, Served;
    if d.pauseCount == 0 {
      StartAllWaiting(d, extra);
    }
  }

  lemma {:induction false} SubmitWaiting(d: Dev, a: Action)
    requires a.ASubmit? && Inv(d) && Enabled(d, a) && Asserts(d, a)
    ensures Waiting(Do(d, a)) == Waiting(d)
  {
    hide Inv, SharedRing.Ring.Valid, SharedRing.Ring.Responses, Core, Controlled, StartRequests;
    AcceptKeeps(d, a.irp, a.size, a.q);
    StartRequestsWaiting(EnqueueAll(Accept(d, a.irp, a.size, a.q), a.q), a.extra);
  }

  lemma {:induction false} ReconnectWaiting(d: Dev, a: Action)
    requires (a.APowerUp? || a.AResume?) && Inv(d) && Enabled(d, a) && Asserts(d, a)
    ensures Waiting(Do(d, a)) == []
  {
    hide Places, OnRing, Granted, IrpsRight, Conserved, Connect, UnpauseAsserts, ReconnectAsserts, Unpause,
      RingReady, Moving, Published, Waiting;
    QuietKeeps(d, a);
    ReplayAllKeepsFlags(d, a.n, a.pages);
    if a.APowerUp? {
      UnpauseWaiting(d, a.n, a.pages, a.extra, true, d.suspended);
      SameUnpause(Connect(d, a.n, a.pages), true, d.suspended);
    } else {
      UnpauseWaiting(d, a.n, a.pages, a.extra, d.powered, false);
      SameUnpause(Connect(d, a.n, a.pages), d.powered, false);
    }
  }

  lemma {:induction false} UnpauseWaiting(d: Dev, n: int, pages: nat, extra: nat, powered: bool, suspended: bool)
    requires Inv(d) && d.inflight == [] && d.dpc.Idle? && RingSize(n) && pages <= d.maxRingPages
    requires !suspended && d.pauseCount - 1 >= (if powered then 0 else 1)
    ensures RingReady(Connect(d, n, pages))
    ensures Waiting(Unpause(Connect(d, n, pages).(powered := powered, suspended := suspended), extra)) == []
  {
    hide Inv, Core, Granted, Served, SameBooks, Connect, Published, StartRequests, SharedRing.Ring.Valid,
      SharedRing.Ring.Responses, RingReady;
    ConnectFrame(d, n, pages);
    ConnectKeeps(d, n, pages);
    var k := Connect(d, n, pages);
    InitValid<Request, Datapath.Response>(n);
    var u := k.(powered := powered, suspended := suspended, pauseCount := k.pauseCount - 1);
    CoreFrame(k, u);
    if u.pauseCount == 0 {
      StartRequestsWaiting(u, extra);
    }
  }

  lemma {:induction false} TakeWaiting(d: Dev, extra: nat)
    requires Inv(d) && Enabled(d, ADpcTake(extra)) && Asserts(d, ADpcTake(extra))
    ensures Waiting(d) != [] && Waiting(DpcTake(d, extra)) == Waiting(d)[1..]
  {
    hide Places, Granted, IrpsRight, Conserved, Controlled, Moving;
    ResponseIsInflight(d);
    TakeResponseRemoves(d.ring);
    RetirePlaces(d);
    RetireRing(d);
    var e := Retire(d);
    hide Served;
    StartNextWaiting(e, extra);
  }

  lemma {:induction false} StartNextWaiting(d: Dev, extra: nat)
    requires RingReady(d) && d.live && d.ring.Valid() && !d.ring.Full()
    ensures Waiting(StartNext(d, extra)) == Waiting(d)
  {
    var f := d.(sched := Flip(d.sched));
    if f.sched.cur != [] && CanGrant(f, f.sched.cur[0], extra) {
      PutRequestAppends(d.ring, f.sched.cur[0]);
      PushRequestsPublishes(StartOne(f).ring);
    }
  }

  /** Steps of the back end; an answer appends a response. */
  lemma {:induction false} BackEndWaiting(d: Dev, a: Action)
    requires Inv(d) && (a.AConsume? || a.AAnswer? || a.APublish?) && Enabled(d, a) && Asserts(d, a)
    ensures Waiting(Do(d, a)) == Waiting(d) + (if a.AAnswer? then [Response(a.r, a.status)] else [])
  {
    hide Places, Granted, IrpsRight, Conserved, Controlled, Moving;
    match a
    case AConsume => TakeRequestRemoves(d.ring);
    case AAnswer(r, status) => PutResponseAppends(d.ring, Response(r, status));
    case APublish => PushResponsesPublishes(d.ring);
  }

  /** Steps that leave the ring alone, or take it away. */
  predicate Aside(a: Action) {
    || a.ADpcEnter? || a.ADpcAgain? || a.ADpcExit? || a.AFinish? || a.APowerDown? || a.AClose?
    || a.ASuspend? || a.AConnectFails? || a.AConnectLost? || a.ADehibernate?
  }

  lemma {:induction false} AsideStep(d: Dev, a: Action)
    requires Aside(a) && Asserts(d, a)
    ensures Do(d, a).live ==> d.live && Do(d, a).ring == d.ring
  {
    hide CompleteInIrp, Without;
  }

  lemma {:induction false} OffStep(d: Dev, a: Action)
    requires Inv(d) && Enabled(d, a) && Asserts(d, a) && (a.AResumeOff? || a.AAbort?)
    ensures Do(d, a).live ==> d.live && Do(d, a).ring == d.ring
  {
    hide Places, OnRing, Granted, IrpsRight, Conserved, StartRequests, Moving, Published;
    if a.AAbort? {
      AbortAllFrame(d);
    }
  }

  /** A response that waits after a step waited before, or is the answer given by the step. */
  lemma {:induction false} WaitingStep(d: Dev, a: Action, p: Datapath.Response)
    requires Inv(d) && Enabled(d, a) && Asserts(d, a) && p in Waiting(Do(d, a))
    ensures p in Waiting(d) || a == AAnswer(p.sfr, p.status)
  {
    hide Inv, SharedRing.Ring.Valid, SharedRing.Ring.Responses, Asserts, Do;
    if a.AConsume? || a.AAnswer? || a.APublish? {
      BackEndWaiting(d, a);
    } else if a.ASubmit? {
      SubmitWaiting(d, a);
    } else if a.APowerUp? || a.AResume? {
      ReconnectWaiting(d, a);
    } else if a.ADpcTake? {
      TakeDo(d, a);
      TakeWaiting(d, a.extra);
    } else if a.AResumeOff? || a.AAbort? {
      OffStep(d, a);
    } else {
      AsideStep(d, a);
    }
  }

  lemma TakeDo(d: Dev, a: Action)
    requires a.ADpcTake? && Asserts(d, a)
    ensures Do(d, a) == DpcTake(d, a.extra)
  {
  }

  lemma {:induction false} SfrsOf(q: seq<Datapath.Response>, k: nat)
    requires k < |q|
    ensures q[k].sfr in Sfrs(q)
  {
    if k > 0 {
      SfrsOf(q[1..], k - 1);
    }
  }

  /** What the back end holds is in flight and has no response on the ring. */
  lemma {:induction false} HeldUnanswered(d: Dev, r: Request)
    requires Inv(d) && d.live && r in d.held
    ensures r in d.inflight && forall p :: p in Waiting(d) ==> p.sfr != r
  {
    hide Granted, IrpsRight, Conserved, Controlled, Moving, SharedRing.Ring.Valid, SharedRing.Ring.Responses,
      SharedRing.Ring.Requests, Sweeping, Bounded, Answered, StateOf;
    FourLists(d.sched.Queued(), d.inflight, d.replay, d.done);
    var q := Waiting(d);
    assert multiset(d.inflight)[r] <= multiset(d.All())[r];
    assert r in multiset(d.inflight) && multiset(d.All())[r] == 1;
    assert r !in Sfrs(q);
    forall p | p in q ensures p.sfr != r {
      var k :| 0 <= k < |q| && q[k] == p;
      SfrsOf(q, k);
    }
  }

  lemma {:induction false} NewUntold(d: Dev, a: Action, p: Datapath.Response)
    requires Inv(d) && Enabled(d, a) && p in Waiting(d)
    ensures p.sfr !in NewAnswers(d, a)
  {
    hide Inv, SharedRing.Ring.Valid, SharedRing.Ring.Responses;
    if a.AAnswer? {
      HeldUnanswered(d, a.r);
    } else {
      NothingNew(d, a);
    }
  }

  lemma NothingNew(d: Dev, a: Action)
    requires Inv(d) && !a.AAnswer? && (a.AAbort? ==> d.live)
    ensures NewAnswers(d, a) == map[]
  {
    hide Places, OnRing, Granted, IrpsRight, Conserved;
  }

  lemma {:induction false} ToldStep(d: Dev, a: Action, c: Answers)
    requires Inv(d) && Enabled(d, a) && Asserts(d, a) && Told(Waiting(d), c)
    ensures Told(Waiting(Do(d, a)), c + NewAnswers(d, a))
  {
    var n := NewAnswers(d, a);
    hide Inv, Waiting, Asserts, Do, Enabled;
    forall p | p in Waiting(Do(d, a)) ensures p.sfr in c + n && (c + n)[p.sfr] == p.status {
      WaitingStep(d, a, p);
      if p in Waiting(d) {
        NewUntold(d, a, p);
      }
    }
  }

  // ------------------------------------------------------------ recorded results

  lemma {:induction false} RetiredOf(f: seq<Finish>, k: nat)
    requires k < |f|
    ensures f[k].req in Retired(f)
  {
    if k < |f| - 1 {
      RetiredOf(f[..|f| - 1], k);
    }
  }

  /** Only requests in flight or waiting for replay are given results. */
  lemma {:induction false} NewIsActive(d: Dev, a: Action, r: Request)
    requires Inv(d) && Enabled(d, a) && r in NewAnswers(d, a)
    ensures r in d.inflight || r in d.replay
  {
    if a.AAnswer? {
      HeldUnanswered(d, r);
    }
  }

  /** A request that is in flight or waits for replay is neither handed over nor finished. */
  lemma {:induction false} ActiveElsewhere(d: Dev, r: Request)
    requires Inv(d) && Single(d.accepted) && (r in d.inflight || r in d.replay)
    ensures forall x :: x in d.done ==> x.id != r.id
    ensures forall x :: x in d.finished ==> x.req != r
  {
    hide Places, OnRing, Granted, IrpsRight, Controlled;
    forall x | x in d.done ensures x.id != r.id {
      Apart(d, x, r);
    }
    FourLists(d.sched.Queued(), d.inflight, d.replay, d.done);
    forall x | x in d.finished ensures x.req != r {
      var k :| 0 <= k < |d.finished| && d.finished[k] == x;
      RetiredOf(d.finished, k);
      assert d.accepted[r] == multiset(d.All())[r] + Retired(d.finished)[r];
    }
  }

  /** A step gives no new result to a request that is handed over or finished. */
  lemma {:induction false} NewElsewhere(d: Dev, a: Action)
    requires Inv(d) && Enabled(d, a) && Single(d.accepted)
    ensures forall r :: r in d.done ==> r !in NewAnswers(d, a)
    ensures forall x :: x in d.finished ==> x.req !in NewAnswers(d, a)
  {
    hide Inv, NewAnswers, Enabled, Single;
    forall r | r in NewAnswers(d, a) ensures r !in d.done && forall x :: x in d.finished ==> x.req != r {
      NewIsActive(d, a, r);
      ActiveElsewhere(d, r);
    }
  }

  lemma MoreRecorded(done: seq<Request>, result: map<nat, int>, f: seq<Finish>, c: Answers, n: Answers)
    requires Recorded(done, result, c) && Concluded(f, c)
    requires (forall r :: r in done ==> r !in n) && forall x :: x in f ==> x.req !in n
    ensures Recorded(done, result, c + n) && Concluded(f, c + n)
  {
  }

  lemma {:induction false} TakeRecorded(d: Dev, extra: nat, c: Answers)
    requires Inv(d) && Enabled(d, ADpcTake(extra)) && Asserts(d, ADpcTake(extra)) && Told(Waiting(d), c)
    requires Recorded(d.done, d.result, c) && Single(d.accepted)
    ensures var e := DpcTake(d, extra);
      Recorded(e.done, e.result, c) && e.finished == d.finished && e.accepted == d.accepted
  {
    hide Inv, DpcTake, Waiting, Recorded, Asserts, Single;
    TakeDone(d, extra);
    var p := Waiting(d)[0];
    assert p in Waiting(d);
    ActiveElsewhere(d, p.sfr);
    RecordOne(d.done, d.result, p.sfr, p.status, c);
  }

  lemma RecordOne(done: seq<Request>, result: map<nat, int>, x: Request, status: int, c: Answers)
    requires Recorded(done, result, c) && x in c && c[x] == status && forall r :: r in done ==> r.id != x.id
    ensures Recorded(done + [x], result[x.id := status], c)
  {
  }

  lemma {:induction false} FinishRecorded(d: Dev, k: nat, c: Answers)
    requires Places(d) && Asserts(d, AFinish(k)) && Recorded(d.done, d.result, c)
    ensures var e := FinishOne(d, k); Recorded(e.done, e.result, c)
    ensures FinishOne(d, k).finished == d.finished + [Finish(d.done[k], d.result[d.done[k].id])]
  {
    hide CompleteInIrp, Places;
    var x, rest := d.done[k], Without(d.done, k);
    forall r | r in rest ensures r in d.done && r.id != x.id {
      var j :| 0 <= j < |rest| && rest[j] == r;
      if j < k {
        DoneApart(d, j, k);
      } else {
        DoneApart(d, k, j + 1);
      }
    }
  }

  lemma {:induction false} AbortRecorded(d: Dev, c: Answers)
    requires Inv(d) && Recorded(d.done, d.result, c) && Single(d.accepted) && Enabled(d, AAbort)
    ensures var e := AbortAll(d);
      Recorded(e.done, e.result, c + NewAnswers(d, AAbort)) && e.finished == d.finished && e.accepted == d.accepted
  {
    hide Inv, Core, AbortAll, Single, Recorded, Enabled;
    NewElsewhere(d, AAbort);
    CoreOf(d);
    AbortResults(d);
    var e := AbortAll(d);
    RecordErrors(d.done, d.replay, d.result, e.result, c, NewAnswers(d, AAbort));
  }

  lemma RecordErrors(done: seq<Request>, replay: seq<Request>, result: map<nat, int>, result': map<nat, int>,
                     c: Answers, n: Answers)
    requires Recorded(done, result, c) && forall r :: r in done ==> r !in n
    requires forall r :: r in replay ==> r.id in result' && r in n && n[r] == result'[r.id]
    requires forall r :: r in done && r.id in result ==> r.id in result' && result'[r.id] == result[r.id]
    ensures Recorded(done + replay, result', c + n)
  {
  }

  lemma {:induction false} FinishAll(d: Dev, a: Action, c: Answers)
    requires a.AFinish? && Inv(d) && Asserts(d, a) && Recorded(d.done, d.result, c) && Concluded(d.finished, c)
    ensures var e := Do(d, a); Recorded(e.done, e.result, c) && Concluded(e.finished, c) && e.accepted == d.accepted
  {
    PlacesOf(d);
    hide Inv, Places, Without, CompleteInIrp;
    FinishRecorded(d, a.k, c);
    ConcludeOne(d.finished, d.done, d.result, a.k, c);
  }

  lemma PlacesOf(d: Dev)
    requires Inv(d)
    ensures Places(d)
  {
    hide Places, OnRing, Granted, IrpsRight, Conserved, Controlled;
  }

  lemma ConcludeOne(f: seq<Finish>, done: seq<Request>, result: map<nat, int>, k: nat, c: Answers)
    requires Concluded(f, c) && Recorded(done, result, c) && k < |done| && done[k].id in result
    ensures Concluded(f + [Finish(done[k], result[done[k].id])], c)
  {
    assert done[k] in done;
  }

  lemma AbortDo(d: Dev, a: Action)
    requires a.AAbort? && Asserts(d, a)
    ensures Do(d, a) == AbortAll(d) && a == AAbort
  {
  }

  /** A step that records and finishes nothing. */
  lemma {:induction false} SilentRecorded(d: Dev, a: Action, c: Answers)
    requires Inv(d) && Enabled(d, a) && Asserts(d, a) && Silent(a) && Sourced(d, c)
    ensures var e, c' := Do(d, a), c + NewAnswers(d, a);
      Recorded(e.done, e.result, c') && Concluded(e.finished, c') && Single(e.accepted)
  {
    hide Inv, Asserts, Do, NewAnswers, Told, Recorded, Concluded, Waiting, Single;
    SilentStep(d, a);
    NewElsewhere(d, a);
    MoreRecorded(d.done, d.result, d.finished, c, NewAnswers(d, a));
    if a.ASubmit? {
      SubmitSingle(d, a);
    } else {
      assert d.accepted + multiset{} == d.accepted;
    }
  }

  lemma {:induction false} AcceptedKnown(d: Dev)
    requires Inv(d)
    ensures forall r :: r in d.accepted ==> r.irp in d.irps
  {
    hide Places, OnRing, Granted, Controlled, IrpRight, Dev.All;
    forall r | r in d.accepted ensures r.irp in d.irps {
      if r in Retired(d.finished) {
        RetiredIs(d.finished, r);
      } else {
        assert r in multiset(d.All());
      }
    }
  }

  lemma {:induction false} RetiredIs(f: seq<Finish>, r: Request)
    requires r in Retired(f)
    ensures exists x :: x in f && x.req == r
  {
    var l := f[|f| - 1];
    if l.req == r {
      assert l in f;
    } else {
      RetiredIs(f[..|f| - 1], r);
      var x :| x in f[..|f| - 1] && x.req == r;
      assert x in f;
    }
  }

  /** The requests of a new IRP were never accepted before. */
  lemma {:induction false} SubmitSingle(d: Dev, a: Action)
    requires a.ASubmit? && Inv(d) && Enabled(d, a) && Single(d.accepted)
    ensures Single(d.accepted + multiset(a.q)) && forall r :: r in a.q ==> r !in d.accepted
  {
    AcceptedKnown(d);
    hide Inv;
    forall r ensures (d.accepted + multiset(a.q))[r] <= 1 {
      if multiset(a.q)[r] >= 2 {
        TwoPlaces(a.q, r);
        assert false;
      }
    }
  }

  lemma {:induction false} TwoPlaces(q: seq<Request>, r: Request)
    requires multiset(q)[r] >= 2
    ensures exists i, j :: 0 <= i < j < |q| && q[i] == q[j] == r
  {
    assert r in multiset(q);
    var i :| 0 <= i < |q| && q[i] == r;
    assert q == q[..i] + [r] + q[i + 1..];
    if r in q[..i] {
      var j :| 0 <= j < i && q[j] == r;
    } else {
      assert r in multiset(q[i + 1..]);
      var j :| 0 <= j < |q[i + 1..]| && q[i + 1..][j] == r;
      assert q[i + 1 + j] == r;
    }
  }

  lemma {:induction false} RecordedStep(d: Dev, a: Action, c: Answers)
    requires Inv(d) && Enabled(d, a) && Asserts(d, a) && Sourced(d, c)
    ensures var e, c' := Do(d, a), c + NewAnswers(d, a);
      Recorded(e.done, e.result, c') && Concluded(e.finished, c') && Single(e.accepted)
  {
    hide Inv, Asserts, Do, NewAnswers, Told, Recorded, Concluded, Waiting, Single;
    if a.ADpcTake? || a.AFinish? {
      assert c + NewAnswers(d, a) == c by { NothingNew(d, a); }
    }
    if a.ADpcTake? {
      TakeRecorded(d, a.extra, c);
      TakeDo(d, a);
    } else if a.AFinish? {
      FinishAll(d, a, c);
    } else if a.AAbort? {
      AbortDo(d, a);
      AbortRecorded(d, c);
      NewElsewhere(d, a);
      MoreConcluded(d.finished, c, NewAnswers(d, a));
    } else {
      SilentRecorded(d, a, c);
    }
  }

  lemma MoreConcluded(f: seq<Finish>, c: Answers, n: Answers)
    requires Concluded(f, c) && forall x :: x in f ==> x.req !in n
    ensures Concluded(f, c + n)
  {
  }

  lemma {:induction false} SourcedStep(d: Dev, a: Action, c: Answers)
    requires Inv(d) && Enabled(d, a) && Asserts(d, a) && Sourced(d, c)
    ensures Inv(Do(d, a)) && Sourced(Do(d, a), c + NewAnswers(d, a))
  {
    hide Inv, Asserts, Do, NewAnswers, Told, Recorded, Concluded, Waiting;
    StepKeepsInv(d, a);
    ToldStep(d, a, c);
    RecordedStep(d, a, c);
  }

  // ------------------------------------------------------------ runs

  lemma FreshSourced(maxRingPages: nat)
    ensures Sourced(Fresh(maxRingPages), map[])
  {
  }

  lemma {:induction false} EverySourced(s: seq<Dev>, a: seq<Action>, i: nat)
    requires IsRun(s, a) && i < |s|
    ensures Sourced(s[i], LastAnswers(s, a, i))
  {
    hide Inv, Asserts, Do, Enabled, Sourced;
    if i == 0 {
      FreshSourced(s[0].maxRingPages);
    } else {
      EverySourced(s, a, i - 1);
      DatapathRuns.EveryRun(s, a, i - 1);
      assert Step(s[i - 1], a[i - 1], s[i]);
      SourcedStep(s[i - 1], a[i - 1], LastAnswers(s, a, i - 1));
    }
  }

  /** In every run, the result with which a request was finished is the last one given to it: what the back end
      answered last, or an error if it was aborted while it waited for replay. */
  lemma {:induction false} ResultIsLast(s: seq<Dev>, a: seq<Action>, i: nat, k: nat)
    requires IsRun(s, a) && i < |s| && k < |s[i].finished|
    ensures Settled(s, a, i, s[i].finished[k].req, s[i].finished[k].result)
  {
    EverySourced(s, a, i);
    hide IsRun, Settled, LastAnswers;
    var x := s[i].finished[k];
    assert x in s[i].finished;
    SettledIff(s, a, i, x.req, x.result);
  }
}
