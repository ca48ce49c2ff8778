/** The event-threshold handshake that every shared ring uses (inc/ring.h, inc/vring.h).

    One side publishes an index; the other watches it and goes to sleep when it has
    seen everything.  Before sleeping the watcher sets an event threshold one past
    what it has seen and looks once more; after publishing, the publisher compares the
    threshold with the stretch it has just published and sends a notification if the
    threshold lies in it.  Every access to shared memory is a step of its own.
  */
module Handshake {
  import opened RingIndex

  /** Between writing the index and reading the threshold the publisher remembers both ends. */
  datatype Publisher = Ready | Written(was: Index, now: Index)

  datatype Watcher =
    | Awake
    | Looked  // found nothing new
    | Armed   // threshold set, second look to come
    | Asleep

  datatype Channel = Channel(
    index: Index, event: Index,  // in shared memory
    pvt: Index, publisher: Publisher,
    owed: bool,                  // a notification has been decided on and not sent
    pending: bool,               // a notification has been sent and not acted on
    seen: Index, watcher: Watcher
  )

  /** Does publishing up to `now` from `was` cross the threshold? */
  predicate Crosses(now: Index, was: Index, event: Index) {
    Diff(now, event) < Diff(now, was)
  }

  // ------------------------------------------------------------ publisher

  function Advance(c: Channel, k: Index): Channel {
    c.(pvt := Plus(c.pvt, k))
  }

  function Publish(c: Channel): Channel {
    c.(index := c.pvt, publisher := Written(c.index, c.pvt))
  }

  function CheckEvent(c: Channel): Channel
    requires c.publisher.Written?
  {
    c.(publisher := Ready, owed := c.owed || Crosses(c.publisher.now, c.publisher.was, c.event))
  }

  function Notify(c: Channel): Channel {
    c.(owed := false, pending := true)
  }

  // ------------------------------------------------------------ watcher

  /** Work up to some point; only an awake watcher does so. */
  function See(c: Channel, x: Index): Channel {
    c.(seen := x)
  }

  /** The first half of the final check. */
  function Look(c: Channel): Channel {
    if c.seen != c.index then c else c.(watcher := Looked)
  }

  function Arm(c: Channel): Channel {
    c.(event := Plus(c.seen, 1), watcher := Armed)
  }

  function LookAgain(c: Channel): Channel {
    c.(watcher := if c.seen != c.index then Awake else Asleep)
  }

  /** A notification is acted on; a watcher may also wake for reasons of its own. */
  function Wake(c: Channel, notified: bool): Channel {
    c.(pending := c.pending && !notified, watcher := Awake)
  }

  // ------------------------------------------------------------ no wakeup is lost

  /** The notification that a sleeping watcher with work to do can count on. */
  ghost predicate Coming(c: Channel) {
    || c.pending
    || c.owed
    || (c.publisher.Written? && Crosses(c.publisher.now, c.publisher.was, c.event))
  }

  ghost predicate Sound(c: Channel) {
    && (c.publisher.Written? ==> c.publisher.now == c.index)
    && (c.watcher.Armed? || c.watcher.Asleep? ==> c.event == Plus(c.seen, 1))
    && (c.watcher.Asleep? && c.index != c.seen ==>
          c.pending || c.owed || (c.publisher.Written? && c.publisher.was == c.seen))
  }

  /** The stretch from what the watcher has seen always crosses its threshold, wherever the
      indices are in their 32-bit range. */
  lemma ThresholdCrossed(now: Index, seen: Index)
    requires now != seen
    ensures Crosses(now, seen, Plus(seen, 1))
  {
  }

  lemma SoundIsSafe(c: Channel)
    requires Sound(c) && c.watcher.Asleep? && c.index != c.seen
    ensures Coming(c)
  {
    if c.publisher.Written? && c.publisher.was == c.seen {
      ThresholdCrossed(c.index, c.seen);
    }
  }

  datatype Step = SAdvance(k: Index) | SPublish | SCheck | SNotify
                | SSee(x: Index) | SLook | SArm | SLookAgain | SWake(notified: bool)

  predicate Enabled(c: Channel, s: Step) {
    match s
    case SAdvance(_) => c.publisher.Ready?
    case SPublish => c.publisher.Ready?
    case SCheck => c.publisher.Written?
    case SNotify => c.owed
    case SSee(_) => c.watcher.Awake?
    case SLook => c.watcher.Awake?
    case SArm => c.watcher.Looked?
    case SLookAgain => c.watcher.Armed?
    case SWake(notified) => c.watcher.Asleep? && (notified ==> c.pending)
  }

  function Do(c: Channel, s: Step): Channel
    requires Enabled(c, s)
  {
    match s
    case SAdvance(k) => Advance(c, k)
    case SPublish => Publish(c)
    case SCheck => CheckEvent(c)
    case SNotify => Notify(c)
    case SSee(x) => See(c, x)
    case SLook => Look(c)
    case SArm => Arm(c)
    case SLookAgain => LookAgain(c)
    case SWake(notified) => Wake(c, notified)
  }

  lemma StepSound(c: Channel, s: Step)
    requires Sound(c) && Enabled(c, s)
    ensures Sound(Do(c, s))
  {
    if s.SCheck? && c.index != c.seen && c.publisher.was == c.seen {
      ThresholdCrossed(c.index, c.seen);
    }
  }

  ghost predicate IsRun(cs: seq<Channel>, ss: seq<Step>) {
    && |cs| == |ss| + 1
    && Sound(cs[0])
    && forall i :: 0 <= i < |ss| ==> Enabled(cs[i], ss[i]) && cs[i + 1] == Do(cs[i], ss[i])
  }

  /** In every interleaving, a watcher asleep with something to see has a notification coming. */
  lemma {:induction false} NoLostWakeup(cs: seq<Channel>, ss: seq<Step>, i: nat)
    requires IsRun(cs, ss) && i < |cs|
    ensures Sound(cs[i])
    ensures cs[i].watcher.Asleep? && cs[i].index != cs[i].seen ==> Coming(cs[i])
  {
    if i > 0 {
      NoLostWakeup(cs, ss, i - 1);
      StepSound(cs[i - 1], ss[i - 1]);
    }
    if cs[i].watcher.Asleep? && cs[i].index != cs[i].seen {
      SoundIsSafe(cs[i]);
    }
  }

  /** No notification without a reason: one that is owed was decided on when a published stretch crossed the threshold
      and has not been sent since, and one that is pending was sent and has not been acted on since. */
  lemma {:induction false} NotifiedForCrossing(cs: seq<Channel>, ss: seq<Step>, i: nat)
    requires IsRun(cs, ss) && i < |cs| && !cs[0].owed && !cs[0].pending
    ensures cs[i].owed ==> exists j :: 0 <= j < i && Decides(cs[j], ss[j]) && forall l :: j < l < i ==> !ss[l].SNotify?
    ensures cs[i].pending ==> exists j :: 0 <= j < i && ss[j].SNotify? && forall l :: j < l < i ==> ss[l] != SWake(true)
  {
    if i > 0 {
      NotifiedForCrossing(cs, ss, i - 1);
      assert cs[i] == Do(cs[i - 1], ss[i - 1]);
      if cs[i].owed && !cs[i - 1].owed {
        assert Decides(cs[i - 1], ss[i - 1]);
      }
      if cs[i].pending && !cs[i - 1].pending {
        assert ss[i - 1].SNotify?;
      }
    }
  }

  /** The publisher finds that what it published crosses the threshold. */
  predicate Decides(c: Channel, s: Step) {
    s.SCheck? && c.publisher.Written? && Crosses(c.publisher.now, c.publisher.was, c.event)
  }

  /** A watcher that looks twice with nothing in between goes to sleep if and only if it has seen everything. */
  lemma SleepsIff(c: Channel)
    requires c.watcher.Awake?
    ensures Look(c).watcher.Looked? <==> c.seen == c.index
    ensures Look(c).watcher.Looked? ==>
      LookAgain(Arm(Look(c))) == c.(event := Plus(c.seen, 1), watcher := Asleep)
  {
  }

  // ------------------------------------------------------------ one side while the other runs

  /** The threshold lies in the stretch just published: strictly above the old index, at or below the new one. */
  ghost predicate InStretch(event: Index, was: Index, now: Index) {
    exists k :: 1 <= k <= Diff(now, was) && event == Plus(was, k)
  }

  /** The comparison of two differences tells whether the published index moved across the threshold. */
  lemma CrossesIff(now: Index, was: Index, event: Index)
    ensures Crosses(now, was, event) <==> InStretch(event, was, now)
  {
    if Crosses(now, was, event) {
      assert event == Plus(was, Diff(event, was));
    }
  }

  predicate OfWatcher(s: Step) {
    s.SSee? || s.SLook? || s.SArm? || s.SLookAgain? || s.SWake?
  }

  /** `d` is reached from `c` by steps of one side. */
  ghost predicate Reaches(c: Channel, steps: seq<Step>, watcher: bool, d: Channel)
    decreases |steps|
  {
    if steps == [] then d == c
    else OfWatcher(steps[0]) == watcher && Enabled(c, steps[0]) && Reaches(Do(c, steps[0]), steps[1..], watcher, d)
  }

  /** The watcher cannot touch what the publisher owns, nor the publisher what the watcher owns. */
  lemma {:induction false} ReachesKeeps(c: Channel, steps: seq<Step>, watcher: bool, d: Channel)
    requires Reaches(c, steps, watcher, d) && Sound(c)
    ensures Sound(d)
    ensures watcher ==> d.index == c.index && d.pvt == c.pvt && d.publisher == c.publisher && d.owed == c.owed
    ensures !watcher ==> d.event == c.event && d.seen == c.seen && d.watcher == c.watcher
    decreases |steps|
  {
    if steps != [] {
      StepSound(c, steps[0]);
      ReachesKeeps(Do(c, steps[0]), steps[1..], watcher, d);
    }
  }
}
