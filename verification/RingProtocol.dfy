/** The request/response ring of inc/ring.h as two handshakes that share their slots.

    The front end publishes requests and watches responses; the back end watches requests
    and publishes responses.  Flow control is the front end's RING_FULL test and the back
    end's rule to answer only what it has consumed.
  */
module RingProtocol {
  import opened RingIndex
  import opened Handshake

  datatype Link = Link(n: Index, req: Channel, rsp: Channel)

  /** RING_FULL */
  predicate Full(l: Link) {
    l.n - Diff(l.req.pvt, l.rsp.seen) == 0
  }

  /** RING_HAS_UNCONSUMED_REQUESTS */
  predicate UnconsumedRequests(l: Link) {
    l.req.seen != l.req.index && Diff(l.req.seen, l.rsp.pvt) != l.n
  }

  /** RING_HAS_UNCONSUMED_RESPONSES */
  predicate UnconsumedResponses(l: Link) {
    l.rsp.seen != l.rsp.index
  }

  datatype Side = OnRequests | OnResponses

  datatype Action =
    | Produce(side: Side)
    | PublishIndex(side: Side) | CheckThreshold(side: Side) | SendEvent(side: Side)
    | Consume(side: Side)
    | FirstLook(side: Side) | SetThreshold(side: Side) | SecondLook(side: Side)
    | WakeUp(side: Side, notified: bool)

  function Chan(l: Link, s: Side): Channel {
    if s.OnRequests? then l.req else l.rsp
  }

  function With(l: Link, s: Side, c: Channel): Link {
    if s.OnRequests? then l.(req := c) else l.(rsp := c)
  }

  predicate Unconsumed(l: Link, s: Side) {
    if s.OnRequests? then UnconsumedRequests(l) else UnconsumedResponses(l)
  }

  predicate Allowed(l: Link, a: Action) {
    var c := Chan(l, a.side);
    match a
    case Produce(s) => c.publisher.Ready? && (if s.OnRequests? then !Full(l) else l.rsp.pvt != l.req.seen)
    case PublishIndex(_) => c.publisher.Ready?
    case CheckThreshold(_) => c.publisher.Written?
    case SendEvent(_) => c.owed
    case Consume(s) => c.watcher.Awake? && Unconsumed(l, s)
    case FirstLook(_) => c.watcher.Awake?
    case SetThreshold(_) => c.watcher.Looked?
    case SecondLook(_) => c.watcher.Armed?
    case WakeUp(_, notified) => c.watcher.Asleep? && (notified ==> c.pending)
  }

  function Perform(l: Link, a: Action): Link
    requires Allowed(l, a)
  {
    var c := Chan(l, a.side);
    match a
    case Produce(s) => With(l, s, Advance(c, 1))
    case PublishIndex(s) => With(l, s, Publish(c))
    case CheckThreshold(s) => With(l, s, CheckEvent(c))
    case SendEvent(s) => With(l, s, Notify(c))
    case Consume(s) => With(l, s, See(c, Plus(c.seen, 1)))
    case FirstLook(s) => if Unconsumed(l, s) then l else With(l, s, c.(watcher := Looked))
    case SetThreshold(s) => With(l, s, Arm(c))
    case SecondLook(s) => With(l, s, c.(watcher := if Unconsumed(l, s) then Awake else Asleep))
    case WakeUp(s, notified) => With(l, s, Wake(c, notified))
  }

  /** The indices in order, measured from the front end's response consumer. */
  ghost predicate InOrder(l: Link) {
    var base := l.rsp.seen;
    && Diff(l.rsp.index, base) <= Diff(l.rsp.pvt, base) <= Diff(l.req.seen, base)
    && Diff(l.req.seen, base) <= Diff(l.req.index, base) <= Diff(l.req.pvt, base) <= l.n
  }

  ghost predicate Inv(l: Link) {
    1 <= l.n < 0x8000_0000 && InOrder(l) && Sound(l.req) && Sound(l.rsp)
  }

  /** The extra clause of the request macro changes nothing: a back end that holds a ring's
      worth of unanswered requests has none left to consume. */
  lemma FullBackEndHasNoRequests(l: Link)
    requires 1 <= l.n < 0x8000_0000 && InOrder(l)
    ensures UnconsumedRequests(l) <==> l.req.seen != l.req.index
  {
  }

  lemma PerformSound(l: Link, a: Action)
    requires Inv(l) && Allowed(l, a)
    ensures Sound(Perform(l, a).req) && Sound(Perform(l, a).rsp)
  {
    var c := Chan(l, a.side);
    FullBackEndHasNoRequests(l);
    match a
    case Produce(s) => StepSound(c, SAdvance(1));
    case PublishIndex(s) => StepSound(c, SPublish);
    case CheckThreshold(s) => StepSound(c, SCheck);
    case SendEvent(s) => StepSound(c, SNotify);
    case Consume(s) => StepSound(c, SSee(Plus(c.seen, 1)));
    case FirstLook(s) => StepSound(c, SLook);
    case SetThreshold(s) => StepSound(c, SArm);
    case SecondLook(s) => StepSound(c, SLookAgain);
    case WakeUp(s, notified) => StepSound(c, SWake(notified));
  }

  /** The final check with nothing in between: a side goes to sleep if and only if it has nothing to consume. */
  lemma FinalCheckIff(l: Link, s: Side)
    requires Inv(l) && Chan(l, s).watcher.Awake?
    ensures var l1 := Perform(l, FirstLook(s));
      if Unconsumed(l, s) then l1 == l
      else
        && Allowed(l1, SetThreshold(s))
        && var l2 := Perform(l1, SetThreshold(s));
           && Allowed(l2, SecondLook(s))
           && Chan(Perform(l2, SecondLook(s)), s) == Chan(l, s).(event := Plus(Chan(l, s).seen, 1), watcher := Asleep)
  {
  }

  lemma PerformInOrder(l: Link, a: Action)
    requires Inv(l) && Allowed(l, a)
    ensures InOrder(Perform(l, a)) && Perform(l, a).n == l.n
  {
  }

  /** SHARED_RING_INIT with both sides idle. */
  function Start(n: Index): Link {
    var c := Channel(0, 1, 0, Ready, false, false, 0, Asleep);
    Link(n, c, c)
  }

  ghost predicate IsRun(ls: seq<Link>, acts: seq<Action>) {
    && |ls| == |acts| + 1
    && 1 <= ls[0].n < 0x8000_0000 && ls[0] == Start(ls[0].n)
    && forall i :: 0 <= i < |acts| ==> Allowed(ls[i], acts[i]) && ls[i + 1] == Perform(ls[i], acts[i])
  }

  /** Every side that sleeps with published entries left to consume has a notification coming,
      in every interleaving and across index overflow; the ring never holds more than `n`. */
  lemma {:induction false} NoLostWakeupOnRing(ls: seq<Link>, acts: seq<Action>, i: nat, s: Side)
    requires IsRun(ls, acts) && i < |ls|
    ensures Inv(ls[i]) && ls[i].n == ls[0].n
    ensures Chan(ls[i], s).watcher.Asleep? && Unconsumed(ls[i], s) ==> Coming(Chan(ls[i], s))
    ensures Diff(ls[i].req.pvt, ls[i].rsp.seen) <= ls[i].n
  {
    if i > 0 {
      NoLostWakeupOnRing(ls, acts, i - 1, s);
      PerformSound(ls[i - 1], acts[i - 1]);
      PerformInOrder(ls[i - 1], acts[i - 1]);
    }
    var c := Chan(ls[i], s);
    if c.watcher.Asleep? && c.index != c.seen {
      SoundIsSafe(c);
    }
  }
}
