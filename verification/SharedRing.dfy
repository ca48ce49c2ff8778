/** The shared request/response ring of inc/ring.h.

    One array of slots carries requests from the front end to the back end and
    responses back again; a response overwrites the slot of some request that
    the back end has already consumed.  Every index is a free-running 32-bit
    word.  `Requests` and `Responses` read the array as two queues, and the
    lemmas say that each ring operation is the corresponding queue operation:
    in particular no operation disturbs an entry that is still to be read.
  */
module SharedRing {
  import opened RingIndex

  datatype Entry<+Q, +R> = Blank | Req(req: Q) | Rsp(rsp: R)

  datatype Ring<Q, R> = Ring(
    n: int,                        // nr_ents
    slots: seq<Entry<Q, R>>,
    reqPvt: Index, reqProd: Index, // front end: private and published producer
    rspCons: Index,                // front end: response consumer
    reqCons: Index,                // back end: request consumer
    rspPvt: Index, rspProd: Index  // back end: private and published producer
  )
  {
    /** Entries the front end has put on the ring and not yet got back (RING_IDX_DIFFERENCE). */
    function Outstanding(): Index {
      Diff(reqPvt, rspCons)
    }

    /** RING_FULL */
    predicate Full() {
      n - Outstanding() == 0
    }

    /** The six indices, measured from the response consumer, are in order. */
    ghost predicate Ordered() {
      && Diff(rspProd, rspCons) <= Diff(rspPvt, rspCons) <= Diff(reqCons, rspCons)
      && Diff(reqCons, rspCons) <= Diff(reqProd, rspCons) <= Outstanding() <= n
    }

    function At(base: Index, i: int): Entry<Q, R>
      requires RingSize(n) && |slots| == n && 0 <= i < WRAP
    {
      slots[Slot(Plus(base, i), n)]
    }

    ghost predicate Valid() {
      && RingSize(n)
      && |slots| == n
      && Ordered()
      && (forall i :: 0 <= i < Diff(rspPvt, rspCons) ==> At(rspCons, i).Rsp?)
      && (forall i :: 0 <= i < Diff(reqPvt, reqCons) ==> At(reqCons, i).Req?)
    }

    /** Requests not yet consumed by the back end, oldest first. */
    ghost function Requests(): (q: seq<Q>)
      requires Valid()
    {
      seq(Diff(reqPvt, reqCons), i requires 0 <= i < Diff(reqPvt, reqCons) => At(reqCons, i).req)
    }

    /** Responses not yet consumed by the front end, oldest first. */
    ghost function Responses(): (q: seq<R>)
      requires Valid()
    {
      seq(Diff(rspPvt, rspCons), i requires 0 <= i < Diff(rspPvt, rspCons) => At(rspCons, i).rsp)
    }

    /** How many requests the back end has consumed and not answered. */
    ghost function Unanswered(): int {
      Diff(reqCons, rspPvt)
    }
  }

  /** SHARED_RING_INIT and FRONT_RING_INIT on a ring of `n` zeroed entries. */
  function Init<Q, R>(n: int): (r: Ring<Q, R>)
    requires n > 0
    ensures r.Outstanding() == 0 && r.n == n
  {
    Ring(n, seq(n, _ => Blank), 0, 0, 0, 0, 0, 0)
  }

  lemma InitValid<Q, R>(n: int)
    requires RingSize(n) && n > 0
    ensures Init<Q, R>(n).Valid()
    ensures Init<Q, R>(n).Requests() == [] && Init<Q, R>(n).Responses() == []
  {
  }

  // ------------------------------------------------------------ front end

  /** Fill the slot at `req_prod_pvt` and advance it. */
  function PutRequest<Q, R>(r: Ring<Q, R>, q: Q): (r': Ring<Q, R>)
    requires RingSize(r.n) && |r.slots| == r.n
  {
    r.(slots := r.slots[Slot(r.reqPvt, r.n) := Req(q)], reqPvt := Plus(r.reqPvt, 1))
  }

  function PushRequests<Q, R>(r: Ring<Q, R>): Ring<Q, R> {
    r.(reqProd := r.reqPvt)
  }

  /** The response at `rsp_cons`, and the ring with it consumed. */
  function TakeResponse<Q, R>(r: Ring<Q, R>): (Entry<Q, R>, Ring<Q, R>)
    requires RingSize(r.n) && |r.slots| == r.n
  {
    (r.slots[Slot(r.rspCons, r.n)], r.(rspCons := Plus(r.rspCons, 1)))
  }

  // ------------------------------------------------------------ back end

  function TakeRequest<Q, R>(r: Ring<Q, R>): (Entry<Q, R>, Ring<Q, R>)
    requires RingSize(r.n) && |r.slots| == r.n
  {
    (r.slots[Slot(r.reqCons, r.n)], r.(reqCons := Plus(r.reqCons, 1)))
  }

  function PutResponse<Q, R>(r: Ring<Q, R>, p: R): (r': Ring<Q, R>)
    requires RingSize(r.n) && |r.slots| == r.n
  {
    r.(slots := r.slots[Slot(r.rspPvt, r.n) := Rsp(p)], rspPvt := Plus(r.rspPvt, 1))
  }

  function PushResponses<Q, R>(r: Ring<Q, R>): Ring<Q, R> {
    r.(rspProd := r.rspPvt)
  }

  // ------------------------------------------------------------ queue laws

  /** Writing the slot of index `w` leaves the entry of any other index in the window alone. */
  lemma OtherSlot<Q, R>(r: Ring<Q, R>, w: Index, x: Index)
    requires RingSize(r.n)
    requires Diff(w, r.rspCons) < r.n && Diff(x, r.rspCons) < r.n && w != x
    ensures Slot(w, r.n) != Slot(x, r.n)
  {
    SlotsDistinct(r.rspCons, Diff(w, r.rspCons), Diff(x, r.rspCons), r.n);
  }

  /** A request put on a ring that is not full overwrites no unread response and
      no unread request. */
  lemma {:induction false} PutRequestAppends<Q, R>(r: Ring<Q, R>, q: Q)
    requires r.Valid() && !r.Full()
    ensures var r' := PutRequest(r, q);
      && r'.Valid()
      && r'.Requests() == r.Requests() + [q]
      && r'.Responses() == r.Responses()
      && r'.Outstanding() == r.Outstanding() + 1
      && r'.Unanswered() == r.Unanswered()
  {
    var r' := PutRequest(r, q);
    forall i | 0 <= i < Diff(r.rspPvt, r.rspCons)
      ensures r'.At(r'.rspCons, i) == r.At(r.rspCons, i)
    {
      OtherSlot(r, r.reqPvt, Plus(r.rspCons, i));
    }
    forall i | 0 <= i < Diff(r.reqPvt, r.reqCons)
      ensures r'.At(r'.reqCons, i) == r.At(r.reqCons, i)
    {
      OtherSlot(r, r.reqPvt, Plus(r.reqCons, i));
    }
    assert r'.At(r'.reqCons, Diff(r.reqPvt, r.reqCons)) == Req(q);
  }

  /** Publishing makes every queued request visible to the back end, and changes no queue. */
  lemma {:induction false} PushRequestsPublishes<Q, R>(r: Ring<Q, R>)
    requires r.Valid()
    ensures var r' := PushRequests(r);
      && r'.Valid() && r'.Requests() == r.Requests() && r'.Responses() == r.Responses()
      && Diff(r'.reqProd, r'.reqCons) == |r.Requests()| && r'.rspProd == r.rspProd
  {
    var r' := PushRequests(r);
    assert forall i {:trigger r'.At(r'.rspCons, i)} :: 0 <= i < WRAP ==> r'.At(r'.rspCons, i) == r.At(r.rspCons, i);
    assert forall i {:trigger r'.At(r'.reqCons, i)} :: 0 <= i < WRAP ==> r'.At(r'.reqCons, i) == r.At(r.reqCons, i);
  }

  /** Taking a published response removes the oldest one and nothing else. */
  lemma {:induction false} TakeResponseRemoves<Q, R>(r: Ring<Q, R>)
    requires r.Valid() && r.rspCons != r.rspProd
    ensures var (e, r') := TakeResponse(r);
      && r'.Valid()
      && r.Responses() != []
      && e == Rsp(r.Responses()[0])
      && r'.Responses() == r.Responses()[1..]
      && r'.Requests() == r.Requests()
      && r'.Outstanding() == r.Outstanding() - 1
      && r'.Unanswered() == r.Unanswered()
      && Diff(r'.rspProd, r'.rspCons) == Diff(r.rspProd, r.rspCons) - 1
  {
    var (e, r') := TakeResponse(r);
    assert r.At(r.rspCons, 0) == e;
    forall i | 0 <= i < Diff(r'.rspPvt, r'.rspCons)
      ensures r'.At(r'.rspCons, i) == r.At(r.rspCons, i + 1)
    {
      assert Plus(r'.rspCons, i) == Plus(r.rspCons, i + 1);
    }
    forall i | 0 <= i < Diff(r'.reqPvt, r'.reqCons)
      ensures r'.At(r'.reqCons, i) == r.At(r.reqCons, i)
    {
    }
  }

  lemma {:induction false} TakeRequestRemoves<Q, R>(r: Ring<Q, R>)
    requires r.Valid() && r.reqCons != r.reqProd
    ensures var (e, r') := TakeRequest(r);
      && r'.Valid()
      && r.Requests() != []
      && e == Req(r.Requests()[0])
      && r'.Requests() == r.Requests()[1..]
      && r'.Responses() == r.Responses()
      && r'.Unanswered() == r.Unanswered() + 1
  {
    var (e, r') := TakeRequest(r);
    assert r.At(r.reqCons, 0) == e;
    forall i | 0 <= i < Diff(r'.reqPvt, r'.reqCons)
      ensures r'.At(r'.reqCons, i) == r.At(r.reqCons, i + 1)
    {
      assert Plus(r'.reqCons, i) == Plus(r.reqCons, i + 1);
    }
    forall i | 0 <= i < Diff(r'.rspPvt, r'.rspCons)
      ensures r'.At(r'.rspCons, i) == r.At(r.rspCons, i)
    {
    }
  }

  /** A back end that answers only what it has consumed overwrites no unread entry. */
  lemma {:induction false} PutResponseAppends<Q, R>(r: Ring<Q, R>, p: R)
    requires r.Valid() && r.Unanswered() > 0
    ensures var r' := PutResponse(r, p);
      && r'.Valid()
      && r'.Responses() == r.Responses() + [p]
      && r'.Requests() == r.Requests()
      && r'.Unanswered() == r.Unanswered() - 1
  {
    var r' := PutResponse(r, p);
    forall i | 0 <= i < Diff(r.rspPvt, r.rspCons)
      ensures r'.At(r'.rspCons, i) == r.At(r.rspCons, i)
    {
      OtherSlot(r, r.rspPvt, Plus(r.rspCons, i));
    }
    forall i | 0 <= i < Diff(r.reqPvt, r.reqCons)
      ensures r'.At(r'.reqCons, i) == r.At(r.reqCons, i)
    {
      OtherSlot(r, r.rspPvt, Plus(r.reqCons, i));
    }
    assert r'.At(r'.rspCons, Diff(r.rspPvt, r.rspCons)) == Rsp(p);
  }

  /** The same for responses. */
  lemma {:induction false} PushResponsesPublishes<Q, R>(r: Ring<Q, R>)
    requires r.Valid()
    ensures var r' := PushResponses(r);
      && r'.Valid() && r'.Requests() == r.Requests() && r'.Responses() == r.Responses()
      && Diff(r'.rspProd, r'.rspCons) == |r.Responses()| && r'.reqProd == r.reqProd
  {
    var r' := PushResponses(r);
    assert forall i {:trigger r'.At(r'.rspCons, i)} :: 0 <= i < WRAP ==> r'.At(r'.rspCons, i) == r.At(r.rspCons, i);
    assert forall i {:trigger r'.At(r'.reqCons, i)} :: 0 <= i < WRAP ==> r'.At(r'.reqCons, i) == r.At(r.reqCons, i);
  }

  /** The ring holds exactly what is outstanding: queued requests, requests in the
      back end's hands and queued responses. */
  lemma OutstandingSplits<Q, R>(r: Ring<Q, R>)
    requires r.Valid()
    ensures r.Outstanding() == |r.Requests()| + r.Unanswered() + |r.Responses()| <= r.n
  {
  }
}
