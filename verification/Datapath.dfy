/** The scsifilt datapath as a step system (scsifilt/rings.c, datapath.c, controlpath.c).

    A device state holds every request that has been accepted and not yet
    completed, the shared ring, the grant cache, the pause bookkeeping and the
    IRPs.  Front-end steps are the critical sections of the ring lock; back-end
    steps touch only the ring and run between any two of them, including between
    two iterations of the completion DPC.
  */
module Datapath {
  import opened Blkif
  import opened RingIndex
  import opened SharedRing
  import opened Elevator
  import opened Measures

  datatype SfrState = Initialised | Queued | Submitted | Processed

  /** A response names its request by address and carries the back end's status. */
  datatype Response = Response(sfr: Request, status: int)

  datatype IrpStatus = Pending | Success | Unsuccessful

  /** What an SRB asks for. */
  datatype Extent = Extent(sectors: nat, sectorSize: nat)
  {
    function Bytes(): nat {
      sectors * sectorSize
    }
  }

  datatype Irp = Irp(
    outstanding: int,   // nr_outstanding in the IRP overlay
    srbOk: bool,        // SrbStatus == SRB_STATUS_SUCCESS
    information: int,   // IoStatus.Information
    status: IrpStatus,  // IoStatus.Status
    completions: nat,   // calls of IoCompleteRequest so far
    size: Extent        // what it transfers in all
  )

  /** Whether the completion DPC holds the ring lock, and the response producer it has read. */
  datatype Dpc = Idle | Polling(prod: Index)

  datatype Finish = Finish(req: Request, result: int)

  datatype Dev = Dev(
    // requests
    sched: Schedule, nrScheduled: int,
    inflight: seq<Request>, nrInflight: int,
    replay: seq<Request>, nrReplay: int,
    done: seq<Request>,                  // handed to finish_requests, not yet completed
    state: map<nat, SfrState>, result: map<nat, int>,
    // shared ring, and the requests the back end has consumed and not answered
    ringPresent: bool, live: bool,
    ring: Ring<Request, Response>, held: multiset<Request>,
    // grant references taken from the cache
    maxRingPages: nat, grants: int, ringGrants: nat,
    // control
    pauseCount: int, suspended: bool, powered: bool, dpc: Dpc,
    // IRPs
    irps: map<nat, Irp>, curOutstanding: int,
    // history: every request ever accepted, every completed request with its result
    accepted: multiset<Request>, finished: seq<Finish>
  )
  {
    /** Every request the device is responsible for. */
    function All(): seq<Request> {
      sched.Queued() + inflight + replay + done
    }

    /** The population guaranteed by the grant cache. */
    function Reserve(): nat {
      MAX_SEGMENTS + maxRingPages
    }
  }

  // ============================================================ operations

  // ------------------------------------------------------------ starting requests

  /** prepare_request succeeds when the cache can supply a reference for every segment.
      The cache supplies at least its reserve; `extra` is what it can supply beyond it. */
  predicate CanGrant(d: Dev, r: Request, extra: nat) {
    d.grants + r.segments <= d.Reserve() + extra
  }

  /** start_this_request on the request at the head of the schedule, once granted. */
  function StartOne(d: Dev): Dev
    requires d.sched.Queued() != [] && RingReady(d)
  {
    var (x, t) := Dequeue(d.sched);
    d.(sched := t, nrScheduled := d.nrScheduled - 1,
       ring := PutRequest(d.ring, x),
       inflight := d.inflight + [x], nrInflight := d.nrInflight + 1,
       grants := d.grants + x.segments,
       state := d.state[x.id := Submitted])
  }

  function Push(d: Dev): Dev {
    d.(ring := PushRequests(d.ring))
  }

  /** The loop of start_requests: fill the ring while requests and grants last, then push. */
  function StartAll(d: Dev, extra: nat): Dev
    requires RingReady(d)
    decreases |d.sched.Queued()|
  {
    if d.ring.Full() then
      Push(d)
    else
      var f := d.(sched := Flip(d.sched));  // get_next_request
      if f.sched.cur == [] || !CanGrant(f, f.sched.cur[0], extra) then
        Push(f)
      else
        StartAll(StartOne(f), extra)
  }

  /** The ring array is there and has a legal size. */
  ghost predicate RingReady(d: Dev) {
    RingSize(d.ring.n) && |d.ring.slots| == d.ring.n
  }

  /** start_requests: nothing is started while the datapath is paused. */
  function StartRequests(d: Dev, extra: nat): Dev
    requires d.ringPresent ==> RingReady(d)
  {
    if d.pauseCount != 0 || !d.ringPresent then d else StartAll(d, extra)
  }

  // ------------------------------------------------------------ submission

  function EnqueueOne(d: Dev, r: Request): Dev {
    d.(sched := Enqueue(d.sched, r), nrScheduled := d.nrScheduled + 1, state := d.state[r.id := Queued])
  }

  function EnqueueAll(d: Dev, q: seq<Request>): (e: Dev)
    ensures e == d.(sched := e.sched, nrScheduled := e.nrScheduled, state := e.state)
    decreases |q|
  {
    if q == [] then d else EnqueueAll(EnqueueOne(d, q[0]), q[1..])
  }

  /** initialise_requests leaves every request in state Initialised. */
  function MarkInitialised(state: map<nat, SfrState>, q: seq<Request>): map<nat, SfrState>
    decreases |q|
  {
    if q == [] then state else MarkInitialised(state[q[0].id := Initialised], q[1..])
  }

  function NewIrp(size: Extent, q: seq<Request>): Irp {
    Irp(|q|, true, 0, Pending, 0, size)
  }

  /** filter_process_irp up to the call of schedule_requests. */
  function Accept(d: Dev, irp: nat, size: Extent, q: seq<Request>): Dev {
    d.(irps := d.irps[irp := NewIrp(size, q)],
       curOutstanding := d.curOutstanding + |q|,
       accepted := d.accepted + multiset(q),
       state := MarkInitialised(d.state, q))
  }

  /** filter_process_irp: account for the requests of the IRP and hand them to schedule_requests. */
  function Submit(d: Dev, irp: nat, size: Extent, q: seq<Request>, extra: nat): Dev
    requires d.ringPresent ==> RingReady(d)
  {
    StartRequests(EnqueueAll(Accept(d, irp, size, q), q), extra)
  }

  // ------------------------------------------------------------ the completion DPC

  /** handle_dpc up to its first read of the response producer. */
  function DpcEnter(d: Dev): Dev {
    if !d.ringPresent || (d.pauseCount != 0 && d.nrInflight == 0) then d
    else d.(dpc := Polling(d.ring.rspProd))
  }

  /** The first half of an iteration: take one response off the ring and move its
      request to the completed list. */
  function Retire(d: Dev): Dev
    requires RingReady(d)
    requires TakeResponse(d.ring).0.Rsp? && TakeResponse(d.ring).0.rsp.sfr in d.inflight
  {
    var (e, ring') := TakeResponse(d.ring);
    var r := e.rsp.sfr;
    d.(ring := ring',
       grants := d.grants - r.segments,
       result := d.result[r.id := e.rsp.status],
       inflight := Without(d.inflight, IndexOf(d.inflight, r)), nrInflight := d.nrInflight - 1,
       done := d.done + [r],
       state := d.state[r.id := Processed])
  }

  /** The second half: start the next request, if there is one and it can be granted. */
  function StartNext(d: Dev, extra: nat): Dev
    requires RingReady(d)
  {
    var f := d.(sched := Flip(d.sched));
    if f.sched.cur == [] || !CanGrant(f, f.sched.cur[0], extra) then f else Push(StartOne(f))
  }

  function DpcTake(d: Dev, extra: nat): Dev
    requires RingReady(d)
    requires TakeResponse(d.ring).0.Rsp? && TakeResponse(d.ring).0.rsp.sfr in d.inflight
  {
    StartNext(Retire(d), extra)
  }

  // ------------------------------------------------------------ completing requests

  /** complete_this_request's effect on the IRP of a request that came back with `result`. */
  function CompleteInIrp(i: Irp, bytes: nat, result: int): Irp {
    var i1 := if i.srbOk && result == OKAY then i.(information := i.information + bytes)
              else i.(srbOk := false);
    if i1.outstanding == 1 then
      i1.(status := if i1.srbOk then Success else Unsuccessful, completions := i1.completions + 1)
    else
      i1.(outstanding := i1.outstanding - 1)
  }

  /** One iteration of finish_requests, on any request that has been handed to it. */
  function FinishOne(d: Dev, k: nat): Dev
    requires k < |d.done| && d.done[k].irp in d.irps && d.done[k].id in d.result
  {
    var r := d.done[k];
    var res := d.result[r.id];
    d.(irps := d.irps[r.irp := CompleteInIrp(d.irps[r.irp], r.bytes, res)],
       done := Without(d.done, k),
       state := d.state - {r.id}, result := d.result - {r.id},
       curOutstanding := d.curOutstanding - 1,
       finished := d.finished + [Finish(r, res)])
  }

  // ------------------------------------------------------------ suspend, connect and replay

  /** early_suspend_cb, and datapath_notice_dehibernated: what was in flight never
      reached a back end that still exists, and waits for replay. */
  function Rescue(d: Dev, suspend: bool): Dev {
    d.(pauseCount := d.pauseCount + 1,
       suspended := d.suspended || suspend,
       replay := d.replay + d.inflight, nrReplay := d.nrReplay + d.nrInflight,
       inflight := [], nrInflight := 0,
       live := false, held := multiset{})
  }

  /** One iteration of replay_pending_requests: rewind, ungrant, queue again. */
  function ReplayOne(d: Dev): Dev
    requires d.replay != []
  {
    var r := d.replay[0];
    EnqueueOne(d.(replay := d.replay[1..], nrReplay := d.nrReplay - 1,
                  grants := d.grants - r.segments,
                  state := d.state[r.id := Initialised]), r)
  }

  function ReplayAll(d: Dev): Dev
    decreases |d.replay|
  {
    if d.replay == [] then d else ReplayAll(ReplayOne(d))
  }

  /** Ring allocation, initialisation and granting in connect_scsifilt_with_token. */
  function FreshRing(d: Dev, n: int, pages: nat): Dev
    requires n > 0
  {
    d.(ringPresent := true, live := true, ring := Init(n), held := multiset{},
       grants := d.grants - d.ringGrants + pages, ringGrants := pages)
  }

  /** A successful connect_scsifilt_with_token. */
  function Connect(d: Dev, n: int, pages: nat): Dev
    requires n > 0
  {
    ReplayAll(FreshRing(d, n, pages))
  }

  function LoseRing(d: Dev): Dev {
    d.(ringPresent := false, live := false, held := multiset{},
       grants := d.grants - d.ringGrants, ringGrants := 0)
  }

  function Unpause(d: Dev, extra: nat): Dev
    requires d.ringPresent ==> RingReady(d)
  {
    var u := d.(pauseCount := d.pauseCount - 1);
    if u.pauseCount == 0 then StartRequests(u, extra) else u
  }

  /** One iteration of abort_pending_requests: a request that waits for replay fails. */
  function AbortOne(d: Dev): Dev
    requires d.replay != []
  {
    var r := d.replay[0];
    d.(replay := d.replay[1..], nrReplay := d.nrReplay - 1,
       grants := d.grants - r.segments,
       result := d.result[r.id := ERROR], state := d.state[r.id := Processed],
       done := d.done + [r])
  }

  function AbortAll(d: Dev): Dev
    decreases |d.replay|
  {
    if d.replay == [] then d else AbortAll(AbortOne(d))
  }

  // ============================================================ assertions

  predicate InState(d: Dev, r: Request, s: SfrState) {
    r.id in d.state && d.state[r.id] == s
  }

  /** start_this_request finds every request it is given queued. */
  ghost predicate StartAsserts(d: Dev, extra: nat)
    requires RingReady(d)
    decreases |d.sched.Queued()|
  {
    var f := d.(sched := Flip(d.sched));
    d.ring.Full() || f.sched.cur == [] ||
    (InState(f, f.sched.cur[0], Queued) &&
     (CanGrant(f, f.sched.cur[0], extra) ==> StartAsserts(StartOne(f), extra)))
  }

  ghost predicate StartRequestsAsserts(d: Dev, extra: nat)
    requires d.ringPresent ==> RingReady(d)
  {
    d.pauseCount != 0 || !d.ringPresent || StartAsserts(d, extra)
  }

  ghost predicate StartNextAsserts(d: Dev) {
    var f := Flip(d.sched);
    f.cur == [] || InState(d, f.cur[0], Queued)
  }

  /** schedule_requests finds every request it is given initialised. */
  ghost predicate EnqueueAsserts(d: Dev, q: seq<Request>)
    decreases |q|
  {
    q == [] || (InState(d, q[0], Initialised) && EnqueueAsserts(EnqueueOne(d, q[0]), q[1..]))
  }

  /** replay_pending_requests finds every request submitted, and as many as were counted. */
  ghost predicate ReplayAsserts(d: Dev)
    decreases |d.replay|
  {
    if d.replay == [] then d.nrReplay == 0
    else InState(d, d.replay[0], Submitted) && ReplayAsserts(ReplayOne(d))
  }

  /** abort_pending_requests does, too. */
  ghost predicate AbortAsserts(d: Dev)
    decreases |d.replay|
  {
    if d.replay == [] then d.nrReplay == 0
    else InState(d, d.replay[0], Submitted) && AbortAsserts(AbortOne(d))
  }

  ghost predicate UnpauseAsserts(d: Dev, extra: nat)
    requires d.ringPresent ==> RingReady(d)
  {
    d.pauseCount - 1 == 0 ==> StartRequestsAsserts(d.(pauseCount := d.pauseCount - 1), extra)
  }
}
