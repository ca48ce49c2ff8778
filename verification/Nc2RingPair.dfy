/** An nc2_ring_pair (inc/vring.h) as an object.

    What the other end does during a call is given by steps of Handshake and Nc2Protocol.
  */
module Nc2RingPair {
  import opened Bits
  import opened RingIndex
  import opened Handshake
  import opened Nc2Ring
  import opened Nc2Protocol

  ghost predicate Continues(p: Pair, q: Pair)
    requires Inv(p)
  {
    exists acts :: During(p, acts, q)
  }

  class RingPair {
    const n: Index                // producer_payload_bytes
    var localProd: Index          // last published producer index
    var localProdPvt: Index
    var localCons: Index          // last published consumer index
    var localConsPvt: Index
    var available: int            // local_prod_bytes_available
    // our fields of the shared area
    var prod: Index
    var prodEvent: Index
    var cons: Index
    var consEvent: Index

    constructor (n: Index)
      ensures this.n == n && localProd == localProdPvt == localCons == localConsPvt == prod == cons == 0
      ensures available == 0 && prodEvent == consEvent == 1
    {
      this.n := n;
      localProd, localProdPvt, localCons, localConsPvt := 0, 0, 0, 0;
      available, prod, cons := 0, 0, 0;
      prodEvent, consEvent := 1, 1;
    }

    /** nc2_flush_ring.  `c` is the channel of the producer index before the call; the other end runs between the
        publication and the read of its threshold `event`, which leads to `m`.  The result says whether the index moved
        across the threshold.  If the other end sleeps with something to read, it is told now or was told before; the
        channel is sound afterwards, so it cannot miss what comes later either. */
    method FlushRing(event: Index, ghost c: Channel, ghost steps: seq<Step>, ghost m: Channel) returns (notify: bool)
      requires Sound(c) && c.publisher.Ready? && c.index == prod == localProd && c.pvt == localProdPvt
      requires Reaches(Publish(c), steps, true, m) && event == m.event
      modifies `prod, `localProd
      ensures prod == localProd == localProdPvt == m.index
      ensures notify <==> InStretch(event, old(localProd), localProdPvt)
      ensures m.watcher.Asleep? && m.seen != prod ==> notify || m.owed || m.pending
      ensures m.publisher.Written? && Sound(CheckEvent(m)) && CheckEvent(m).owed == (m.owed || notify)
    {
      StepSound(c, SPublish);
      ReachesKeeps(Publish(c), steps, true, m);
      StepSound(m, SCheck);
      CrossesIff(localProdPvt, localProd, event);
      var newProd, oldProd := localProdPvt, localProd;
      prod := newProd;
      localProd := newProd;
      notify := Diff(newProd, event) < Diff(newProd, oldProd);
    }

    /** nc2_finish_messages: the same for the consumer index, which a producer without space watches. */
    method FinishMessages(event: Index, ghost c: Channel, ghost steps: seq<Step>,
                          ghost m: Channel) returns (notify: bool)
      requires Sound(c) && c.publisher.Ready? && c.index == cons == localCons && c.pvt == localConsPvt
      requires Reaches(Publish(c), steps, true, m) && event == m.event
      modifies `cons, `localCons
      ensures cons == localCons == localConsPvt == m.index
      ensures notify <==> InStretch(event, old(localCons), localConsPvt)
      ensures m.watcher.Asleep? && m.seen != cons ==> notify || m.owed || m.pending
      ensures m.publisher.Written? && Sound(CheckEvent(m)) && CheckEvent(m).owed == (m.owed || notify)
    {
      StepSound(c, SPublish);
      ReachesKeeps(Publish(c), steps, true, m);
      StepSound(m, SCheck);
      CrossesIff(localConsPvt, localCons, event);
      var oldCons, newCons := localCons, localConsPvt;
      cons := newCons;
      localCons := newCons;
      notify := Diff(newCons, event) < Diff(newCons, oldCons);
    }

    /** nc2_final_check_for_messages on the channel `c` of the other end's producer index.  The other end runs
        before the threshold is set, which leads to `m`, and before the second look, which leads to `w`; `first`
        and `second` are what the two looks find.  If the answer is no, nothing was left to read at the second
        look, and the channel is one whose watcher sleeps soundly: whatever is published from then on brings a
        notification. */
    method FinalCheckForMessages(seen: Index, first: Index, second: Index, ghost c: Channel,
                                 ghost early: seq<Step>, ghost m: Channel, ghost late: seq<Step>, ghost w: Channel)
      returns (more: bool)
      requires Sound(c) && c.watcher.Awake? && c.seen == seen && c.index == first
      requires Reaches(Look(c), early, false, m)
      requires seen == first ==> m.watcher.Looked? && Reaches(Arm(m), late, false, w) && second == w.index
      modifies `prodEvent
      ensures more && first == seen ==> w.index != w.seen
      ensures !more ==>
        && first == seen && w.index == w.seen == seen
        && LookAgain(w).watcher.Asleep? && LookAgain(w).event == prodEvent && Sound(LookAgain(w))
      ensures first != seen ==> more && prodEvent == old(prodEvent)
    {
      if seen != first {
        return true;
      }
      StepSound(c, SLook);
      ReachesKeeps(Look(c), early, false, m);
      StepSound(m, SArm);
      ReachesKeeps(Arm(m), late, false, w);
      StepSound(w, SLookAgain);
      prodEvent := Plus(seen, 1);
      more := seen != second;
    }

    /** The ring pair over time while the producer asks for space: from each moment to the next the other end, and the
        producer's own accesses, take some steps. */
    ghost predicate Unfolds(world: nat -> Pair)
      reads this
    {
      && Inv(world(0)) && world(0).n == n && world(0).out.pvt == localProdPvt && world(0).out.index == localProd
      && forall t: nat :: Inv(world(t)) ==> Continues(world(t), world(t + 1))
    }

    lemma {:induction false} UnfoldsRight(world: nat -> Pair, t: nat)
      requires Unfolds(world)
      ensures Inv(world(t)) && world(t).n == n && world(t).out.pvt == localProdPvt && world(t).out.index == localProd
      ensures Outstanding(world(t)) <= n && Diff(localProdPvt, world(t).space.index) <= n
    {
      if t > 0 {
        UnfoldsRight(world, t - 1);
        assert Continues(world(t - 1), world(t));
        var acts :| During(world(t - 1), acts, world(t));
        DuringShrinks(world(t - 1), acts, world(t));
      }
      hide GrantHolds, Sound, Geometry;
    }

    /** From one moment to the next the consumer index stays or gets closer to the published producer index. */
    lemma {:induction false} UnfoldsShrinks(world: nat -> Pair, t: nat)
      requires Unfolds(world)
      ensures Outstanding(world(t + 1)) <= Outstanding(world(t))
      ensures world(t + 1).space.index != world(t).space.index ==> Outstanding(world(t + 1)) < Outstanding(world(t))
    {
      UnfoldsRight(world, t);
      assert Continues(world(t), world(t + 1));
      var acts :| During(world(t), acts, world(t + 1));
      hide Inv;
      DuringShrinks(world(t), acts, world(t + 1));
    }

    /** nc2_can_send_payload_bytes.  If the answer is yes, the message fits with its pad.  If it is no, there was not
        enough space at time `t - 1`, a threshold was set one past the index read then, and the index was
        still the same at time `t`.  Reading the index, looking at it again and reading it anew after a change
        are moments of their own.  Each retry finds the consumer index closer to the published producer index,
        so there are at most as many as the ring has bytes. */
    method CanSendPayloadBytes(nr: Short, world: nat -> Pair) returns (ok: bool, t: nat)
      requires nr < 0x8000 && Unfolds(world)
      modifies `available, `consEvent
      ensures ok ==> nr + Pad(localProdPvt, n, nr) <= available
      ensures ok ==> available == old(available) || available == Free(localProdPvt, n, world(t).space.index)
      ensures !ok ==> t > 0 && Free(localProdPvt, n, world(t).space.index) < nr + Pad(localProdPvt, n, nr)
      ensures !ok ==> consEvent == Plus(world(t).space.index, 1) && world(t).space.index == world(t - 1).space.index
      ensures !ok ==> available == old(available)
      ensures t <= 2 * n + 1
    {
      UnfoldsRight(world, 0);
      SizeOf(world(0));
      hide IsPow2, Inv, And, Unfolds, Continues;
      t := 0;
      if available > nr * 2 {
        FastPathCoversPad(localProdPvt, n, nr, available);
        return true, t;
      }
      NeededIffShort(localProdPvt, n, nr);
      var needed: Short := if WouldWrap(localProdPvt, n, nr) then U16(nr + PadNeeded(localProdPvt, n)) else nr;
      assert needed == nr + Pad(localProdPvt, n, nr);
      hide WouldWrap, PadNeeded, U16, Pad, Needed, Diff, Outstanding;
      while true
        invariant available == old(available) && t + 2 * Outstanding(world(t)) <= 2 * n
        decreases Outstanding(world(t))
      {
        UnfoldsRight(world, t);
        UnfoldsShrinks(world, t);
        UnfoldsShrinks(world, t + 1);
        var c := world(t).space.index;
        var space := n - Diff(localProdPvt, c);
        if space >= needed {
          available := space;
          return true, t;
        }
        consEvent := Plus(c, 1);
        t := t + 1;
        if c == world(t).space.index {
          return false, t;
        }
        t := t + 1;  // the other end may run before the index is read again
      }
    }

    lemma SizeOf(p: Pair)
      requires Inv(p) && p.n == n
      ensures RingSize(n)
    {
    }

    /** __nc2_avoid_ring_wrap, as far as the indices go: after it the message is contiguous. */
    method AvoidRingWrap(nr: Short)
      requires RingSize(n) && nr + Pad(localProdPvt, n, nr) <= available <= n
      modifies `localProdPvt, `available
      ensures localProdPvt == Plus(old(localProdPvt), old(Pad(localProdPvt, n, nr)))
      ensures available == old(available) - old(Pad(localProdPvt, n, nr))
      ensures localProdPvt % n + nr <= n && nr <= available
    {
      Contiguous(localProdPvt, n, nr);
      if !WouldWrap(localProdPvt, n, nr) {
        return;
      }
      PadIsShort(localProdPvt, n, nr);
      var pad := PadNeeded(localProdPvt, n);
      localProdPvt := Plus(localProdPvt, pad);
      available := available - pad;
    }
  }
}
