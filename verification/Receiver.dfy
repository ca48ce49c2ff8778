/** The receive side of the network driver (net/receiver_common.c).

    Buffers (RFDs) are granted to the back end through the receive ring, each
    under the id of a shadow; a response gives the id back.  The back end is
    represented by the two methods whose names start with `Backend`: it consumes
    requests and answers each consumed id once, in any order.  Between calls
    `Valid` holds, whatever the order of the calls.
  */
module Receiver {
  import opened Wrappers
  import opened Numbers
  import opened RingIndex
  import SharedRing
  import opened RxShadows

  datatype Request = Request(id: int, page: nat)

  /** NETRXF_data_validated, _csum_blank, _more_data and _gso_prefix; Unknown stands for any other bit. */
  datatype Flag = DataValidated | CsumBlank | MoreData | GsoPrefix | Unknown

  datatype Response = Response(id: int, status: int, offset: nat, flags: set<Flag>)
  {
    predicate More() {
      MoreData in flags
    }

    predicate Prefix() {
      GsoPrefix in flags
    }
  }

  type Ring = SharedRing.Ring<Request, Response>

  const MAX_CACHED: int := 64

  /** How an allocation of an RFD can turn out. */
  datatype Outcome = Complete | NoPage | NoRfd

  /** A received fragment: the RFD, and where in its buffer the data is. */
  datatype Fragment = Fragment(rfd: nat, offset: nat, count: int)

  /** The value of a 32-bit counter. */
  function Wrapped(x: int): int {
    x % WRAP
  }

  lemma CounterMoves(x: int, e: int)
    requires x == Wrapped(e)
    ensures Wrapped(x + 1) == Wrapped(e + 1) && Wrapped(x - 1) == Wrapped(e - 1)
  {
  }

  function RequestIds(q: seq<Request>): (r: seq<int>)
    ensures |r| == |q|
  {
    seq(|q|, i requires 0 <= i < |q| => q[i].id)
  }

  function ResponseIds(q: seq<Response>): (r: seq<int>)
    ensures |r| == |q|
  {
    seq(|q|, i requires 0 <= i < |q| => q[i].id)
  }

  /** What is granted under an id is the page of the RFD recorded under it. */
  ghost predicate Offered(sh: seq<Shadow>, q: seq<Request>) {
    forall k :: 0 <= k < |q| ==> 0 <= q[k].id < |sh| && sh[q[k].id].rfd == Some(q[k].page)
  }

  ghost predicate OnRing(sh: seq<Shadow>, ring: Ring, back: multiset<int>) {
    && ring.Valid() && ring.Unanswered() == |back|
    && Wired(sh, ResponseIds(ring.Responses()), back, RequestIds(ring.Requests()))
    && Offered(sh, ring.Requests())
  }

  lemma WellShaped(ring: Ring)
    requires ring.Valid()
    ensures RingSize(ring.n) && |ring.slots| == ring.n
  {
  }

  /** An id whose request waits is in use. */
  lemma WaitingInUse(sh: seq<Shadow>, rsp: seq<int>, back: multiset<int>, q: seq<Request>, k: nat)
    requires Wired(sh, rsp, back, RequestIds(q)) && k < |q|
    ensures 0 <= q[k].id < |sh| && sh[q[k].id].inUse && q[k].id !in rsp
  {
    var ids := RequestIds(q);
    assert ids[k] == q[k].id && q[k].id in multiset(ids);
    assert Copies(rsp, back, ids, q[k].id) >= 1;
    assert multiset(rsp)[q[k].id] == 0;
  }

  lemma {:induction false} RequestWired(sh: seq<Shadow>, ring: Ring, back: multiset<int>, id: int, r: nat)
    requires OnRing(sh, ring, back) && !ring.Full() && 0 <= id < |sh| && !sh[id].inUse
    ensures RingSize(ring.n) && |ring.slots| == ring.n
    ensures var ring' := SharedRing.PutRequest(ring, Request(id, r));
      && ring'.n == ring.n && ring'.rspCons == ring.rspCons
      && OnRing(sh[id := Shadow(Some(r), true, INVALID)], ring', back) && ring'.Outstanding() == ring.Outstanding() + 1
      && ring'.Responses() == ring.Responses() && ring'.Requests() == ring.Requests() + [Request(id, r)]
  {
    var q, p := ring.Requests(), ring.Responses();
    SharedRing.PutRequestAppends(ring, Request(id, r));
    hide Copies;
    hide SharedRing.Ring.Valid, SharedRing.Ring.Requests, SharedRing.Ring.Responses, SharedRing.PutRequest;
    WiredRequest(sh, ResponseIds(p), back, RequestIds(q), id, Shadow(Some(r), true, INVALID));
    assert RequestIds(q + [Request(id, r)]) == RequestIds(q) + [id];
    forall k | 0 <= k < |q| ensures q[k].id != id {
      WaitingInUse(sh, ResponseIds(p), back, q, k);
    }
  }

  /** Freeing an id that was never on the ring. */
  lemma FreeAgain(sh: seq<Shadow>, ring: Ring, back: multiset<int>, id: int, x: Shadow)
    requires OnRing(sh, ring, back) && 0 <= id < |sh| && !sh[id].inUse && !x.inUse
    ensures OnRing(sh[id := x], ring, back)
  {
    var q, p := ring.Requests(), ring.Responses();
    hide Copies;
    WiredSame(sh, ResponseIds(p), back, RequestIds(q), id, x);
    forall k | 0 <= k < |q| ensures q[k].id != id {
      WaitingInUse(sh, ResponseIds(p), back, q, k);
    }
  }

  lemma PushWired(sh: seq<Shadow>, ring: Ring, back: multiset<int>)
    requires OnRing(sh, ring, back)
    ensures OnRing(sh, SharedRing.PushRequests(ring), back)
    ensures SharedRing.PushRequests(ring).Requests() == ring.Requests()
    ensures SharedRing.PushRequests(ring).Responses() == ring.Responses()
  {
    SharedRing.PushRequestsPublishes(ring);
  }

  lemma ConsumeWired(sh: seq<Shadow>, ring: Ring, back: multiset<int>)
    requires OnRing(sh, ring, back) && ring.reqCons != ring.reqProd
    ensures ring.Requests() != []
    ensures OnRing(sh, SharedRing.TakeRequest(ring).1, back + multiset{ring.Requests()[0].id})
    ensures SharedRing.TakeRequest(ring).0 == SharedRing.Req(ring.Requests()[0])
    ensures SharedRing.TakeRequest(ring).1.Requests() == ring.Requests()[1..]
  {
    var q, p := ring.Requests(), ring.Responses();
    SharedRing.TakeRequestRemoves(ring);
    hide Copies;
    hide SharedRing.Ring.Valid, SharedRing.Ring.Requests, SharedRing.Ring.Responses, SharedRing.TakeRequest;
    WiredConsume(sh, ResponseIds(p), back, RequestIds(q));
    assert RequestIds(q[1..]) == RequestIds(q)[1..];
  }

  lemma AnswerWired(sh: seq<Shadow>, ring: Ring, back: multiset<int>, a: Response)
    requires OnRing(sh, ring, back) && a.id in back
    ensures OnRing(sh, SharedRing.PutResponse(ring, a), back - multiset{a.id})
    ensures SharedRing.PutResponse(ring, a).Responses() == ring.Responses() + [a]
    ensures SharedRing.PutResponse(ring, a).Requests() == ring.Requests()
  {
    var q, p := ring.Requests(), ring.Responses();
    SharedRing.PutResponseAppends(ring, a);
    hide Copies;
    hide SharedRing.Ring.Valid, SharedRing.Ring.Requests, SharedRing.Ring.Responses, SharedRing.PutResponse;
    WiredAnswer(sh, ResponseIds(p), back, RequestIds(q), a.id);
    assert ResponseIds(p + [a]) == ResponseIds(p) + [a.id];
  }

  lemma {:induction false} ReceiveWired(sh: seq<Shadow>, ring: Ring, back: multiset<int>, x: Shadow)
    requires OnRing(sh, ring, back) && ring.rspCons != ring.rspProd && !x.inUse
    ensures var p, ring' := ring.Responses(), SharedRing.TakeResponse(ring).1;
      && p != [] && 0 <= p[0].id < |sh| && sh[p[0].id].inUse
      && SharedRing.TakeResponse(ring).0 == SharedRing.Rsp(p[0])
      && ring'.n == ring.n && OnRing(sh[p[0].id := x], ring', back)
      && ring'.Responses() == p[1..] && ring'.Outstanding() == ring.Outstanding() - 1
      && Diff(ring'.rspProd, ring'.rspCons) == Diff(ring.rspProd, ring.rspCons) - 1
  {
    var q, p := ring.Requests(), ring.Responses();
    SharedRing.TakeResponseRemoves(ring);
    hide Copies;
    hide SharedRing.Ring.Valid, SharedRing.Ring.Requests, SharedRing.Ring.Responses, SharedRing.TakeResponse;
    WiredReceive(sh, ResponseIds(p), back, RequestIds(q), x);
    assert ResponseIds(p[1..]) == ResponseIds(p)[1..] && ResponseIds(p)[0] == p[0].id;
    forall k | 0 <= k < |q| ensures q[k].id != p[0].id {
      WaitingInUse(sh, ResponseIds(p), back, q, k);
    }
  }

  /** No two waiting responses carry the same id. */
  lemma ResponseOnce(sh: seq<Shadow>, ring: Ring, back: multiset<int>, j: nat, k: nat)
    requires OnRing(sh, ring, back) && j < k < |ring.Responses()|
    ensures ring.Responses()[j].id != ring.Responses()[k].id
  {
    var p := ring.Responses();
    var ids := ResponseIds(p);
    if p[k].id == p[j].id {
      Twice(ids, back, RequestIds(ring.Requests()), j, k);
      assert false;
    }
  }

  lemma FreshWired(sh: seq<Shadow>, n: int)
    requires RingSize(n) && 0 < n && forall i :: 0 <= i < |sh| ==> !sh[i].inUse
    ensures OnRing(sh, SharedRing.Init(n), multiset{})
  {
    SharedRing.InitValid<Request, Response>(n);
  }

  // ------------------------------------------------------------ packets

  /** The responses that have been published. */
  ghost function Published(ring: Ring): (p: seq<Response>)
    requires ring.Valid()
    ensures |p| == Diff(ring.rspProd, ring.rspCons) && p <= ring.Responses()
  {
    ring.Responses()[..Diff(ring.rspProd, ring.rspCons)]
  }

  /** The responses begin with a packet.  Its prefixes are not its last part, and fragments carry no other flags
      than the driver knows; it asserts both. */
  ghost predicate WholePacket(p: seq<Response>) {
    && p != [] && (if p[0].Prefix() then p[0].More() else Unknown !in p[0].flags)
    && (p[0].More() ==> WholePacket(p[1..]))
  }

  ghost function PacketLength(p: seq<Response>): (k: nat)
    requires WholePacket(p)
    ensures 1 <= k <= |p|
  {
    if p[0].More() then 1 + PacketLength(p[1..]) else 1
  }

  /** What is passed up: an error, the prefix RFD, the chain of fragments, the octets in 32 bits, and the flags. */
  datatype Packet = Packet(failed: bool, prefix: Option<nat>, frags: seq<Fragment>, octets: int, flags: set<Flag>)

  function Nothing(): Packet {
    Packet(false, None, [], 0, {})
  }

  function Add(acc: Packet, a: Response, r: nat): Packet {
    var failed := acc.failed || a.status < 0;
    var flags := acc.flags + a.flags;
    if a.Prefix() then acc.(failed := failed, prefix := Some(r), flags := flags)
    else Packet(failed, acc.prefix, acc.frags + [Fragment(r, a.offset, a.status)],
                Wrapped(acc.octets + a.status), flags)
  }

  ghost predicate Known(p: seq<Response>, sh: seq<Shadow>) {
    forall k :: 0 <= k < |p| ==> 0 <= p[k].id < |sh| && sh[p[k].id].rfd.Some?
  }

  ghost function Gather(p: seq<Response>, sh: seq<Shadow>, acc: Packet): Packet
    requires WholePacket(p) && Known(p, sh)
  {
    var acc' := Add(acc, p[0], sh[p[0].id].rfd.value);
    if p[0].More() then Gather(p[1..], sh, acc') else acc'
  }

  /** The RFDs of the packet. */
  ghost function Taken(p: seq<Response>, sh: seq<Shadow>): set<nat>
    requires WholePacket(p) && Known(p, sh)
  {
    {sh[p[0].id].rfd.value} + if p[0].More() then Taken(p[1..], sh) else {}
  }

  ghost predicate Agree(p: seq<Response>, sh: seq<Shadow>, sh': seq<Shadow>) {
    |sh| == |sh'| && forall k :: 0 <= k < |p| ==> 0 <= p[k].id < |sh| && sh[p[k].id] == sh'[p[k].id]
  }

  lemma {:induction false} GatherAgrees(p: seq<Response>, sh: seq<Shadow>, sh': seq<Shadow>, acc: Packet)
    requires WholePacket(p) && Known(p, sh) && Agree(p, sh, sh')
    ensures Known(p, sh') && Gather(p, sh, acc) == Gather(p, sh', acc) && Taken(p, sh) == Taken(p, sh')
  {
    if p[0].More() {
      GatherAgrees(p[1..], sh, sh', Add(acc, p[0], sh[p[0].id].rfd.value));
    }
  }

  /** The fragments, in order: what is not a prefix. */
  ghost function Fragments(p: seq<Response>, sh: seq<Shadow>): seq<Fragment>
    requires WholePacket(p) && Known(p, sh)
  {
    (if p[0].Prefix() then [] else [Fragment(sh[p[0].id].rfd.value, p[0].offset, p[0].status)])
    + if p[0].More() then Fragments(p[1..], sh) else []
  }

  ghost function Octets(f: seq<Fragment>): int {
    if f == [] then 0 else f[0].count + Octets(f[1..])
  }

  lemma WrapsAdd(x: int, y: int, z: int)
    ensures Wrapped(Wrapped(x + y) + z) == Wrapped(x + (y + z))
  {
  }

  lemma OctetsFirst(a: Fragment, f: seq<Fragment>)
    ensures Octets([a] + f) == a.count + Octets(f)
  {
    assert ([a] + f)[1..] == f;
  }

  /** The chain passed up is the fragments in the order they came, with their octets counted in 32 bits. */
  lemma {:induction false} GatherFragments(p: seq<Response>, sh: seq<Shadow>, acc: Packet)
    requires WholePacket(p) && Known(p, sh) && acc.octets == Wrapped(acc.octets)
    ensures var g, f := Gather(p, sh, acc), Fragments(p, sh);
      f != [] && g.frags == acc.frags + f && g.octets == Wrapped(acc.octets + Octets(f))
  {
    hide Wrapped, Octets, Gather, Known, Taken, Fragments, Add;
    GatherOne(p, sh, acc);
    var r := sh[p[0].id].rfd.value;
    var acc' := Add(acc, p[0], r);
    var one := Fragment(r, p[0].offset, p[0].status);
    AddWraps(acc, p[0], r);
    var rest: seq<Fragment> := [];
    if p[0].More() {
      GatherFragments(p[1..], sh, acc');
      rest := Fragments(p[1..], sh);
    } else {
      NoOctets();
    }
    FragmentsOne(p, sh, rest);
    if !p[0].Prefix() {
      OctetsFirst(one, rest);
      WrapsAdd(acc.octets, one.count, Octets(rest));
      assert acc.frags + [one] + rest == acc.frags + ([one] + rest);
    }
  }

  lemma FragmentsOne(p: seq<Response>, sh: seq<Shadow>, rest: seq<Fragment>)
    requires WholePacket(p) && Known(p, sh)
    requires (p[0].More() ==> rest == Fragments(p[1..], sh)) && (!p[0].More() ==> rest == [])
    ensures Fragments(p, sh) ==
      if p[0].Prefix() then rest else [Fragment(sh[p[0].id].rfd.value, p[0].offset, p[0].status)] + rest
  {
  }

  lemma NoOctets()
    ensures Octets([]) == 0
  {
  }

  lemma {:induction false} AddWraps(acc: Packet, a: Response, r: nat)
    requires acc.octets == Wrapped(acc.octets)
    ensures var g := Add(acc, a, r);
      && g.octets == Wrapped(g.octets)
      && g.octets == (if a.Prefix() then acc.octets else Wrapped(acc.octets + a.status))
      && g.frags == if a.Prefix() then acc.frags else acc.frags + [Fragment(r, a.offset, a.status)]
  {
  }

  /** The call fails exactly if some response of the packet reports an error. */
  lemma {:induction false} GatherFails(p: seq<Response>, sh: seq<Shadow>, acc: Packet)
    requires WholePacket(p) && Known(p, sh)
    ensures Gather(p, sh, acc).failed <==> acc.failed || exists k :: 0 <= k < PacketLength(p) && p[k].status < 0
  {
    if p[0].More() {
      var t := p[1..];
      var acc' := Add(acc, p[0], sh[p[0].id].rfd.value);
      GatherFails(t, sh, acc');
      if exists k :: 0 <= k < PacketLength(p) && p[k].status < 0 {
        var k :| 0 <= k < PacketLength(p) && p[k].status < 0;
        if k > 0 {
          assert t[k - 1].status < 0;
        }
      }
      if exists k :: 0 <= k < PacketLength(t) && t[k].status < 0 {
        var k :| 0 <= k < PacketLength(t) && t[k].status < 0;
        assert p[k + 1].status < 0;
      }
    }
  }

  /** The flags passed up are those of any response of the packet. */
  lemma {:induction false} GatherFlags(p: seq<Response>, sh: seq<Shadow>, acc: Packet, f: Flag)
    requires WholePacket(p) && Known(p, sh)
    ensures f in Gather(p, sh, acc).flags <==> f in acc.flags || exists k :: 0 <= k < PacketLength(p) && f in p[k].flags
  {
    if p[0].More() {
      var t := p[1..];
      GatherFlags(t, sh, Add(acc, p[0], sh[p[0].id].rfd.value), f);
      if exists k :: 0 <= k < PacketLength(p) && f in p[k].flags {
        var k :| 0 <= k < PacketLength(p) && f in p[k].flags;
        if k > 0 {
          assert f in t[k - 1].flags;
        }
      }
      if exists k :: 0 <= k < PacketLength(t) && f in t[k].flags {
        var k :| 0 <= k < PacketLength(t) && f in t[k].flags;
        assert f in p[k + 1].flags;
      }
    }
  }

  ghost function Prefixes(p: seq<Response>): nat
    requires WholePacket(p)
  {
    (if p[0].Prefix() then 1 else 0) + if p[0].More() then Prefixes(p[1..]) else 0
  }

  ghost function FragmentRfds(f: seq<Fragment>): set<nat> {
    if f == [] then {} else {f[0].rfd} + FragmentRfds(f[1..])
  }

  ghost function Just(r: Option<nat>): set<nat> {
    if r.Some? then {r.value} else {}
  }

  /** The RFDs that can be reached from what is passed up. */
  ghost function Reached(g: Packet): set<nat> {
    FragmentRfds(g.frags) + Just(g.prefix)
  }

  ghost predicate Apart(p: seq<Response>, sh: seq<Shadow>)
    requires Known(p, sh)
  {
    forall j, k :: 0 <= j < k < |p| ==> sh[p[j].id].rfd != sh[p[k].id].rfd
  }

  ghost function LastPrefix(p: seq<Response>, sh: seq<Shadow>): (r: Option<nat>)
    requires WholePacket(p) && Known(p, sh)
    ensures r.Some? <==> Prefixes(p) >= 1
  {
    if p[0].More() && LastPrefix(p[1..], sh).Some? then LastPrefix(p[1..], sh)
    else if p[0].Prefix() then Some(sh[p[0].id].rfd.value)
    else None
  }

  lemma {:induction false} GatherPrefix(p: seq<Response>, sh: seq<Shadow>, acc: Packet)
    requires WholePacket(p) && Known(p, sh)
    ensures Gather(p, sh, acc).prefix == if LastPrefix(p, sh).Some? then LastPrefix(p, sh) else acc.prefix
  {
    if p[0].More() {
      GatherPrefix(p[1..], sh, Add(acc, p[0], sh[p[0].id].rfd.value));
    }
  }

  /** What is passed up, packet part by packet part. */
  ghost function Handed(p: seq<Response>, sh: seq<Shadow>): set<nat>
    requires WholePacket(p) && Known(p, sh)
  {
    FragmentRfds(Fragments(p, sh)) + Just(LastPrefix(p, sh))
  }

  lemma {:induction false} HandedOne(p: seq<Response>, sh: seq<Shadow>)
    requires WholePacket(p) && Known(p, sh)
    ensures var r := sh[p[0].id].rfd.value;
      if !p[0].More() then Handed(p, sh) == {r} && Prefixes(p) == 0
      else if !p[0].Prefix() then Handed(p, sh) == {r} + Handed(p[1..], sh)
      else Handed(p, sh) == Handed(p[1..], sh) + if Prefixes(p[1..]) == 0 then {r} else {}
  {
    var r, rest := sh[p[0].id].rfd.value, if p[0].More() then Fragments(p[1..], sh) else [];
    FragmentsOne(p, sh, rest);
    RfdsOfFirst(Fragment(r, p[0].offset, p[0].status), rest);
  }

  lemma RfdsOfFirst(a: Fragment, f: seq<Fragment>)
    ensures FragmentRfds([a] + f) == {a.rfd} + FragmentRfds(f)
  {
    assert ([a] + f)[1..] == f;
  }

  lemma {:induction false} NotTaken(p: seq<Response>, sh: seq<Shadow>, r: nat)
    requires WholePacket(p) && Known(p, sh) && forall k :: 0 <= k < |p| ==> sh[p[k].id].rfd != Some(r)
    ensures r !in Taken(p, sh)
  {
    if p[0].More() {
      NotTaken(p[1..], sh, r);
    }
  }

  lemma FirstApart(p: seq<Response>, sh: seq<Shadow>)
    requires WholePacket(p) && Known(p, sh) && Apart(p, sh) && p[0].More()
    ensures Known(p[1..], sh) && Apart(p[1..], sh)
    ensures sh[p[0].id].rfd.value !in Taken(p[1..], sh)
  {
    NotTaken(p[1..], sh, sh[p[0].id].rfd.value);
  }

  lemma {:induction false} HandedIff(p: seq<Response>, sh: seq<Shadow>)
    requires WholePacket(p) && Known(p, sh) && Apart(p, sh)
    ensures Handed(p, sh) <= Taken(p, sh)
    ensures Handed(p, sh) == Taken(p, sh) <==> Prefixes(p) <= 1
  {
    hide Handed, Known, Apart;
    GatherOne(p, sh, Nothing());
    HandedOne(p, sh);
    if p[0].More() {
      FirstApart(p, sh);
      var t, r := p[1..], sh[p[0].id].rfd.value;
      HandedIff(t, sh);
      assert r !in Handed(t, sh);
      assert Taken(p, sh) == {r} + Taken(t, sh);
      if Handed(t, sh) == Taken(t, sh) {
      } else {
        var x :| x in Taken(t, sh) && x !in Handed(t, sh);
        assert x in Taken(p, sh) && x !in Handed(p, sh);
      }
    }
  }

  /** Every RFD of the packet can be reached exactly if it has at most one prefix: of two, the first is lost. */
  lemma NoneLost(p: seq<Response>, sh: seq<Shadow>)
    requires WholePacket(p) && Known(p, sh) && Apart(p, sh)
    ensures Reached(Gather(p, sh, Nothing())) == Taken(p, sh) <==> Prefixes(p) <= 1
  {
    hide Known, Apart, Gather, Taken, Fragments, Prefixes, FragmentRfds;
    GatherFragments(p, sh, Nothing());
    GatherPrefix(p, sh, Nothing());
    assert [] + Fragments(p, sh) == Fragments(p, sh);
    HandedIff(p, sh);
  }

  /** A packet of two prefixes and a fragment: the RFD of the first prefix is lost. */
  lemma {:induction false} TwoPrefixesLoseOne()
    ensures var p := [Response(0, 0, 0, {MoreData, GsoPrefix}), Response(1, 0, 0, {MoreData, GsoPrefix}),
                      Response(2, 60, 0, {})];
      var sh := [Shadow(Some(7), true, INVALID), Shadow(Some(8), true, INVALID), Shadow(Some(9), true, INVALID)];
      && WholePacket(p) && Known(p, sh) && 7 in Taken(p, sh) && Reached(Gather(p, sh, Nothing())) == {8, 9}
  {
    var a, b := Response(0, 0, 0, {MoreData, GsoPrefix}), Response(1, 0, 0, {MoreData, GsoPrefix});
    var c := Response(2, 60, 0, {});
    var p, p1, p2 := [a, b, c], [b, c], [c];
    var sh := [Shadow(Some(7), true, INVALID), Shadow(Some(8), true, INVALID), Shadow(Some(9), true, INVALID)];
    assert p[1..] == p1 && p1[1..] == p2;
    assert WholePacket(p2) && WholePacket(p1) && WholePacket(p);
    var g := Add(Add(Add(Nothing(), a, 7), b, 8), c, 9);
    assert Gather(p2, sh, Add(Add(Nothing(), a, 7), b, 8)) == g;
    assert Gather(p1, sh, Add(Nothing(), a, 7)) == g;
    assert Gather(p, sh, Nothing()) == g;
    var f := Fragment(9, 0, 60);
    assert g.frags == [f] && [f][1..] == [];
    assert FragmentRfds([f]) == {9};
  }

  lemma NothingYet(n: int)
    requires n > 0
    ensures Wrapped(0) == 0 && SharedRing.Init<Request, Response>(n).rspCons == 0
  {
  }

  class Receiver {
    const n: int               // MAX_RX_FRAGS
    const shadows: array<Shadow>
    const memory: nat -> Outcome  // what the system does with the successive allocations
    var asked: nat                // allocations so far
    var nextFreeId: int
    var nrFreeIds: int
    var pendingRfds: int
    var cache: seq<nat>        // from RfdCacheHead on
    var numCachedRfds: int
    var currNumRfd: int        // an unsigned 32-bit word
    var ring: Ring
    var grantsLeft: int        // what the grant cache is sure to supply
    var granted: set<nat>      // RFDs whose Gref is not null
    var made: nat              // next unused RFD name

    ghost var free: seq<int>
    ghost var held: set<nat>   // RFDs passed to the layers above
    ghost var backend: multiset<int>
    ghost var failures: nat    // page-buffer allocations that failed
    ghost var refusals: nat    // allocations of either kind that failed

    ghost predicate Books()
      reads this, shadows
    {
      && RingSize(n) && 0 < n < INVALID && shadows.Length == n
      && Threaded(shadows[..], nextFreeId, free) && FreeIds(shadows[..], free)
      && nrFreeIds == |free|
    }

    /** The counters agree, but for `loose` RFDs in the hands of the code and `taken` ids not yet used. */
    ghost predicate Counts(loose: int, taken: int)
      reads this
    {
      && pendingRfds == n - nrFreeIds - taken
      && grantsLeft == n - pendingRfds
      && numCachedRfds == |cache| <= MAX_CACHED
      && currNumRfd == Wrapped(pendingRfds + |cache| + |held| + loose - failures)
    }

    ghost predicate Stock()
      reads this, shadows
    {
      Stocked(Rfds(shadows[..]), cache, held, granted, made)
    }

    ghost predicate IsLoose(r: nat)
      reads this, shadows
    {
      Loose(r, Rfds(shadows[..]), cache, held, granted, made)
    }

    ghost predicate Wire()
      reads this, shadows
    {
      ring.n == n && ring.Outstanding() == pendingRfds && OnRing(shadows[..], ring, backend)
    }

    ghost predicate Filled()
      reads shadows
    {
      forall i :: 0 <= i < shadows.Length && shadows[i].inUse ==> shadows[i].rfd.Some?
    }

    ghost predicate Valid()
      reads this, shadows
    {
      Books() && Counts(0, 0) && Stock() && Filled() && Wire()
    }

    /** ReceiverCommonInitialize and ReceiverCommonInitializeBuffers. */
    constructor (size: int, memory: nat -> Outcome)
      requires RingSize(size) && 0 < size < INVALID
      ensures Valid() && n == size && held == {} && backend == multiset{}
      ensures memory(0) == NoPage ==> failures == 1 && pendingRfds == 0 && cache == []
      ensures ring.reqProd == pendingRfds
    {
      n := size;
      this.memory, asked := memory, 0;
      shadows := new Shadow[size](_ => Shadow(None, false, 0));
      nextFreeId, nrFreeIds, free := INVALID, 0, [];
      pendingRfds, cache, numCachedRfds, currNumRfd := 0, [], 0, 0;
      ring := SharedRing.Init(size);
      grantsLeft, granted, made := size, {}, 0;
      held, backend, failures, refusals := {}, multiset{}, 0, 0;
      new;
      InitializeBuffers();
    }

    /** ReceiverCommonInitializeBuffers */
    method InitializeBuffers()
      requires RingSize(n) && 0 < n < INVALID && shadows.Length == n
      requires forall i :: 0 <= i < n ==> shadows[i] == Shadow(None, false, 0)
      requires nextFreeId == INVALID && nrFreeIds == 0 && free == [] && asked == 0
      requires pendingRfds == 0 && cache == [] && numCachedRfds == 0 && currNumRfd == 0 && ring == SharedRing.Init(n)
      requires grantsLeft == n && granted == {} && made == 0
      requires held == {} && backend == multiset{} && failures == 0 && refusals == 0
      modifies this, shadows
      ensures Valid() && held == {} && backend == multiset{}
      ensures memory(0) == NoPage ==> failures == 1 && pendingRfds == 0 && cache == []
      ensures ring.reqProd == pendingRfds
    {
      hide Threaded, FreeIds, Stocked, Rfds, Wired, Offered, Wrapped, SharedRing.Init;
      hide SharedRing.Ring.Valid, SharedRing.Ring.Requests, SharedRing.Ring.Responses;
      InitializeShadows();
      NothingYet(n);
      FreshWired(shadows[..], n);
      StockEmpty(shadows[..]);
      var exhausted := ReplenishRxRing();
    }

    method InitializeShadows()
      requires RingSize(n) && 0 < n < INVALID && shadows.Length == n
      requires nextFreeId == INVALID && nrFreeIds == 0 && free == []
      requires forall i :: 0 <= i < n ==> !shadows[i].inUse && shadows[i].rfd == None
      modifies shadows, `nextFreeId, `nrFreeIds, `free
      ensures Books() && nrFreeIds == n
      ensures forall i :: 0 <= i < n ==> !shadows[i].inUse && shadows[i].rfd == None
    {
      hide Threaded;
      NothingThreaded(shadows[..]);
      for i := 0 to n
        invariant Threaded(shadows[..], nextFreeId, free) && nrFreeIds == |free| == i
        invariant forall j :: 0 <= j < n ==> !shadows[j].inUse && shadows[j].rfd == None && (j in free <==> j < i)
        invariant forall k :: 0 <= k < |free| ==> 0 <= free[k] < i
      {
        PushFreeId(i);
        assert forall j :: j in free <==> j == i || j in free[1..];
      }
    }

    // ---------------------------------------------------------- shadows

    /** ReceiverCommonAllocateShadow */
    method AllocateShadow() returns (id: int)
      requires Books()
      modifies shadows, `nextFreeId, `nrFreeIds, `free
      ensures Books()
      ensures old(free) == [] ==> id == INVALID && shadows[..] == old(shadows[..]) && free == []
      ensures old(free) != [] ==>
        && id == old(free)[0] && free == old(free)[1..] && 0 <= id < n
        && !old(shadows[id]).inUse && old(shadows[id]).rfd == None
        && shadows[..] == old(shadows[..])[id := Shadow(None, true, INVALID)]
    {
      if nrFreeIds == 0 {
        return INVALID;
      }
      nrFreeIds := nrFreeIds - 1;
      id := nextFreeId;
      assert id != INVALID;
      assert id == free[0];
      assert !shadows[id].inUse && shadows[id].rfd == None;
      assert nrFreeIds == 0 || shadows[id].next != INVALID;
      ghost var sh := shadows[..];
      ghost var x := Shadow(None, true, INVALID);
      Unthread(sh, nextFreeId, free, x);
      FreeIdsTaken(sh, nextFreeId, free, x);
      nextFreeId := shadows[id].next;
      shadows[id] := shadows[id].(inUse := true, next := INVALID);
      free := free[1..];
      assert shadows[..] == sh[id := x];
    }

    /** __ReceiverCommonFreeShadow: put an id at the head of the list. */
    method PushFreeId(id: int)
      requires shadows.Length == n && 0 <= id < n && shadows[id].rfd == None
      requires Threaded(shadows[..], nextFreeId, free) && nrFreeIds == |free| && id !in free
      modifies shadows, `nextFreeId, `nrFreeIds, `free
      ensures Threaded(shadows[..], nextFreeId, free) && nrFreeIds == |free| && free == [id] + old(free)
      ensures shadows[..] == old(shadows[..])[id := Shadow(None, false, old(nextFreeId))]
    {
      ghost var sh := shadows[..];
      ghost var x := Shadow(None, false, nextFreeId);
      Thread(sh, nextFreeId, free, id, x);
      ListShort(sh, nextFreeId, free, id);
      shadows[id] := Shadow(shadows[id].rfd, false, nextFreeId);
      nextFreeId := id;
      if nrFreeIds < n {
        nrFreeIds := nrFreeIds + 1;
      }
      free := [id] + free;
      assert shadows[..] == sh[id := x];
    }

    /** ReceiverCommonFreeShadow */
    method FreeShadow(id: int)
      requires Books() && 0 <= id < n && shadows[id].inUse && shadows[id].rfd == None
      modifies shadows, `nextFreeId, `nrFreeIds, `free
      ensures Books() && free == [id] + old(free)
      ensures shadows[..] == old(shadows[..])[id := Shadow(None, false, old(nextFreeId))]
    {
      assert shadows[id].next == INVALID;
      FreeIdsGiven(shadows[..], free, id, Shadow(None, false, nextFreeId));
      PushFreeId(id);
    }

    // ---------------------------------------------------------- RFDs

    /** ReceiverCommonAllocateRfd */
    method AllocateRfd() returns (r: Option<nat>)
      requires Stock() && Counts(0, 1)
      modifies `cache, `numCachedRfds, `currNumRfd, `made, `failures, `refusals, `asked
      ensures old(cache) != [] ==> r == Some(old(cache)[0]) && cache == old(cache)[1..] && failures == old(failures)
      ensures old(cache) == [] ==>
        && cache == [] && (r.Some? <==> memory(old(asked)) == Complete)
        && failures == old(failures) + (if memory(old(asked)) == NoPage then 1 else 0)
      ensures refusals == old(refusals) + (if r.None? then 1 else 0)
      ensures Stock() && (r.Some? ==> Counts(1, 1) && IsLoose(r.value)) && (r.None? ==> Counts(0, 1))
    {
      hide Stocked, Loose, Wrapped, Rfds;
      ghost var slots := Rfds(shadows[..]);
      CounterMoves(currNumRfd, pendingRfds + |cache| + |held| - failures);
      if cache != [] {
        StockUncached(slots, cache, held, granted, made);
        r := Some(cache[0]);
        cache := cache[1..];
        numCachedRfds := numCachedRfds - 1;
        assert cache == [] <==> numCachedRfds == 0;
        return;
      }
      var outcome := memory(asked);
      asked := asked + 1;
      if outcome == NoRfd {
        refusals := refusals + 1;
        return None;
      }
      if outcome == NoPage {
        // the error path releases the RFD, which takes off the count what was never put on
        currNumRfd := Wrapped(currNumRfd - 1);
        failures, refusals := failures + 1, refusals + 1;
        return None;
      }
      StockNew(slots, cache, held, granted, made);
      r := Some(made);
      made := made + 1;
      currNumRfd := Wrapped(currNumRfd + 1);
    }

    /** ReceiverCommonReleaseRfd */
    method ReleaseRfd(r: nat, toCache: bool)
      requires Stock() && Counts(1, 0) && IsLoose(r)
      modifies `cache, `numCachedRfds, `currNumRfd
      ensures Stock() && Counts(0, 0)
      ensures cache == if toCache && |old(cache)| < MAX_CACHED then [r] + old(cache) else old(cache)
    {
      hide Stocked, Wrapped, Rfds;
      assert r !in granted;
      CounterMoves(currNumRfd, pendingRfds + |cache| + |held| + 1 - failures);
      if toCache && numCachedRfds < MAX_CACHED {
        assert cache == [] <==> numCachedRfds == 0;
        StockCached(Rfds(shadows[..]), cache, held, granted, made, r);
        numCachedRfds := numCachedRfds + 1;
        cache := [r] + cache;
        return;
      }
      currNumRfd := Wrapped(currNumRfd - 1);
    }

    /** ReceiverCommonReceiveRfd: take the RFD of a shadow back from the back end. */
    method ReceiveRfd(id: int) returns (r: nat)
      requires Books() && Stock() && Counts(0, 0) && Filled() && 0 <= id < n && shadows[id].inUse
      modifies shadows, `nextFreeId, `nrFreeIds, `free, `granted, `grantsLeft, `pendingRfds
      ensures Books() && Stock() && Counts(1, 0) && Filled() && IsLoose(r)
      ensures old(shadows[id].rfd) == Some(r) && r in old(granted)
      ensures pendingRfds == old(pendingRfds) - 1
      ensures shadows[..] == old(shadows[..])[id := Shadow(None, false, old(nextFreeId))]
    {
      hide Threaded, FreeIds, Stocked, Loose;
      ghost var sh := shadows[..];
      ghost var x := shadows[id].(rfd := None);
      r := shadows[id].rfd.value;
      StockRemoved(Rfds(sh), cache, held, granted, made, id);
      EmptyShadow(sh, nextFreeId, free, id, x);
      shadows[id] := shadows[id].(rfd := None);
      assert shadows[..] == sh[id := x];
      FreeShadow(id);
      assert shadows[..] == sh[id := Shadow(None, false, old(nextFreeId))];
      RfdsUpdate(sh, id, Shadow(None, false, old(nextFreeId)));
      granted := granted - {r};
      grantsLeft := grantsLeft + 1;
      pendingRfds := pendingRfds - 1;
    }

    /** ReceiverCommonReturnRfd: grant the RFD, which cannot fail, and put a request on the ring. */
    method ReturnRfd(r: nat, id: int)
      requires r !in granted && grantsLeft > 0
      requires RingSize(ring.n) && |ring.slots| == ring.n
      modifies `granted, `grantsLeft, `pendingRfds, `ring
      ensures granted == old(granted) + {r} && grantsLeft == old(grantsLeft) - 1 && pendingRfds == old(pendingRfds) + 1
      ensures ring == SharedRing.PutRequest(old(ring), Request(id, r))
    {
      grantsLeft := grantsLeft - 1;
      granted := granted + {r};
      pendingRfds := pendingRfds + 1;
      ring := SharedRing.PutRequest(ring, Request(id, r));
    }

    /** One round of ReceiverCommonReplenishRxRing. */
    method ReplenishOne() returns (ok: bool)
      requires Valid() && nrFreeIds != 0
      modifies this, shadows
      ensures Valid() && held == old(held) && backend == old(backend)
      ensures ring.Responses() == old(ring.Responses()) && ring.rspCons == old(ring.rspCons)
      ensures pendingRfds == old(pendingRfds) + (if ok then 1 else 0)
      ensures ok ==> failures == old(failures)
      ensures !ok ==> ring == old(ring)
      ensures old(cache) == [] && memory(old(asked)) == NoPage ==> !ok && failures == old(failures) + 1 && cache == []
      ensures refusals == old(refusals) + (if ok then 0 else 1)
    {
      hide Threaded, FreeIds, Stocked, Loose, OnRing, Rfds;
      hide SharedRing.Ring.Valid, SharedRing.Ring.Requests, SharedRing.Ring.Responses, SharedRing.PutRequest;
      ghost var sh := shadows[..];
      var id := AllocateShadow();
      ghost var sh1 := shadows[..];
      RfdsSame(sh, id, Shadow(None, true, INVALID));
      var rfd := AllocateRfd();
      if rfd == None {
        FreeShadow(id);
        assert shadows[..] == sh[id := shadows[id]];
        FreeAgain(sh, ring, backend, id, shadows[id]);
        RfdsSame(sh, id, shadows[id]);
        return false;
      }
      ghost var x := Shadow(Some(rfd.value), true, INVALID);
      EmptyShadow(sh1, nextFreeId, free, id, x);
      assert rfd.value !in granted by {
        LooseNotGranted(rfd.value, Rfds(sh1), cache, held, granted, made);
      }
      RfdsAt(sh1, id);
      StockPlaced(Rfds(sh1), cache, held, granted, made, id, rfd.value);
      RfdsUpdate(sh1, id, x);
      RequestWired(sh, ring, backend, id, rfd.value);
      shadows[id] := shadows[id].(rfd := Some(rfd.value));
      assert shadows[..] == sh1[id := x] == sh[id := x];
      assert grantsLeft > 0;
      ReturnRfd(rfd.value, id);
      return true;
    }

    /** ReceiverCommonReplenishRxRing: fill the ring as far as memory lasts, and publish. */
    method ReplenishRxRing() returns (exhausted: bool)
      requires Valid()
      modifies this, shadows
      ensures Valid() && held == old(held) && backend == old(backend)
      ensures ring.reqProd == ring.reqPvt && ring.rspCons == old(ring.rspCons)
      ensures ring.Responses() == old(ring.Responses())
      ensures pendingRfds >= old(pendingRfds) && (!exhausted ==> pendingRfds == n && failures == old(failures))
      ensures refusals == old(refusals) + (if exhausted then 1 else 0)
      ensures old(cache) == [] && old(nrFreeIds) != 0 && memory(old(asked)) == NoPage ==>
        exhausted && pendingRfds == old(pendingRfds) && failures == old(failures) + 1 && cache == []
    {
      hide Threaded, FreeIds, Stocked, Wired, Offered;
      hide SharedRing.Ring.Valid, SharedRing.Ring.Requests, SharedRing.Ring.Responses;
      exhausted := false;
      while nrFreeIds != 0 && !exhausted
        invariant Valid() && held == old(held) && backend == old(backend)
        invariant ring.Responses() == old(ring.Responses()) && ring.rspCons == old(ring.rspCons)
        invariant pendingRfds >= old(pendingRfds)
        invariant !exhausted ==> failures == old(failures)
        invariant refusals == old(refusals) + (if exhausted then 1 else 0)
        invariant old(cache) == [] && old(nrFreeIds) != 0 && memory(old(asked)) == NoPage ==>
          && pendingRfds == old(pendingRfds) && cache == [] && failures == old(failures) + (if exhausted then 1 else 0)
          && (!exhausted ==> asked == old(asked) && nrFreeIds == old(nrFreeIds))
        decreases nrFreeIds + if exhausted then 0 else 1
      {
        var ok := ReplenishOne();
        exhausted := !ok;
      }
      assert ring.Outstanding() <= n;
      PushWired(shadows[..], ring, backend);
      ring := SharedRing.PushRequests(ring);
    }

    // ---------------------------------------------------------- back end

    /** The back end consumes the oldest published request. */
    method BackendConsume() returns (id: int, page: nat)
      requires Valid() && ring.reqCons != ring.reqProd
      modifies `ring, `backend
      ensures Valid() && backend == old(backend) + multiset{id} && 0 <= id < n && shadows[id].rfd == Some(page)
      ensures old(ring.Requests()) == [Request(id, page)] + ring.Requests()
    {
      hide Threaded, FreeIds, Stocked, Wired;
      hide SharedRing.Ring.Valid, SharedRing.Ring.Requests, SharedRing.Ring.Responses;
      WellShaped(ring);
      ConsumeWired(shadows[..], ring, backend);
      var (e, rest) := SharedRing.TakeRequest(ring);
      id, page := e.req.id, e.req.page;
      backend := backend + multiset{id};
      ring := rest;
    }

    /** The back end answers an id it holds, and publishes the answer. */
    method BackendAnswer(a: Response)
      requires Valid() && a.id in backend
      modifies `ring, `backend
      ensures Valid() && backend == old(backend) - multiset{a.id}
      ensures Published(ring) == ring.Responses() == old(ring.Responses()) + [a]
      ensures ring.Requests() == old(ring.Requests())
    {
      hide Threaded, FreeIds, Stocked, Wired;
      hide SharedRing.Ring.Valid, SharedRing.Ring.Requests, SharedRing.Ring.Responses;
      WellShaped(ring);
      AnswerWired(shadows[..], ring, backend, a);
      ring := SharedRing.PutResponse(ring, a);
      SharedRing.PushResponsesPublishes(ring);
      ring := SharedRing.PushResponses(ring);
      backend := backend - multiset{a.id};
    }

    // ---------------------------------------------------------- teardown

    /** The loop that ReceiverCommonRestartEarly and ReceiverCommonCleanupBuffers share. */
    method ReclaimAll()
      requires Books() && Stock() && Counts(0, 0) && Filled()
      modifies shadows, `nextFreeId, `nrFreeIds, `free, `granted, `grantsLeft, `pendingRfds,
               `cache, `numCachedRfds, `currNumRfd
      ensures Books() && Stock() && Counts(0, 0) && Filled()
      ensures pendingRfds == 0 && nrFreeIds == n && granted == {} && cache == old(cache)
      ensures forall i :: 0 <= i < n ==> !shadows[i].inUse
    {
      hide Threaded, Stocked, Loose, Rfds;
      for i := 0 to n
        invariant Books() && Stock() && Counts(0, 0) && Filled() && cache == old(cache)
        invariant forall j :: 0 <= j < i ==> !shadows[j].inUse
      {
        if shadows[i].inUse {
          var r := ReceiveRfd(i);
          ReleaseRfd(r, false);
        }
      }
      ListFull(shadows[..], nextFreeId, free);
      NoneGranted(shadows[..], cache, held, granted, made);
    }

    /** ReceiverCommonRestartEarly: the old back end is gone, and with it the old ring. */
    method RestartEarly()
      requires Valid()
      modifies this, shadows
      ensures Valid() && pendingRfds == 0 && granted == {} && backend == multiset{} && held == old(held)
      ensures ring == SharedRing.Init(n) && failures == old(failures) && cache == old(cache)
    {
      hide Threaded, FreeIds, Stocked, OnRing;
      ring := SharedRing.Init(n);
      backend := multiset{};
      ReclaimAll();
      FreshWired(shadows[..], n);
    }

    /** ReceiverCommonCleanupBuffers; `clean` is its last assertion. */
    method CleanupBuffers() returns (clean: bool)
      requires Valid()
      modifies this, shadows
      ensures pendingRfds == 0 && nrFreeIds == n && granted == {} && cache == [] && held == old(held)
      ensures clean <==> Wrapped(|held| - failures) == 0 && failures == old(failures)
    {
      hide Threaded, FreeIds, Stocked, Loose, Wire;
      ReclaimAll();
      while numCachedRfds != 0
        invariant Stock() && Counts(0, 0) && pendingRfds == 0 && nrFreeIds == n
        invariant granted == {} && held == old(held) && failures == old(failures)
        decreases |cache|
      {
        var r := cache[0];
        StockUncached(Rfds(shadows[..]), cache, held, granted, made);
        cache := cache[1..];
        numCachedRfds := numCachedRfds - 1;
        ReleaseRfd(r, false);
      }
      clean := currNumRfd == 0;
    }

    // ---------------------------------------------------------- packets

    /** ReceiverCommonReleaseMdlChain: the layers above give RFDs back; as many as fit are cached, the last one
        first. */
    method ReleaseMdlChain(chain: seq<nat>)
      requires Valid()
      requires forall k :: 0 <= k < |chain| ==> chain[k] in held
      requires forall j, k :: 0 <= j < k < |chain| ==> chain[j] != chain[k]
      modifies `cache, `numCachedRfds, `currNumRfd, `held
      ensures Valid() && held == old(held) - Members(chain, |chain|)
      ensures cache == Reversed(chain[..Min(|chain|, MAX_CACHED - |old(cache)|)]) + old(cache)
    {
      hide Valid, Reversed;
      CacheFits(this);
      ghost var room := MAX_CACHED - |cache|;
      for i := 0 to |chain|
        invariant Valid() && held == old(held) - Members(chain, i)
        invariant cache == Reversed(chain[..Min(i, room)]) + old(cache)
        invariant forall k :: i <= k < |chain| ==> chain[k] in held
      {
        CachedMore(chain, i, room, old(cache));
        ReleaseOne(chain[i]);
      }
    }

    method ReleaseOne(r: nat)
      requires Valid() && r in held
      modifies `cache, `numCachedRfds, `currNumRfd, `held
      ensures Valid() && held == old(held) - {r}
      ensures cache == if |old(cache)| < MAX_CACHED then [r] + old(cache) else old(cache)
    {
      hide Threaded, FreeIds, Stocked, Loose, OnRing, Rfds;
      StockHandedBack(Rfds(shadows[..]), cache, held, granted, made, r);
      held := held - {r};
      ReleaseRfd(r, true);
    }

    /** ReceiverCommonReceiveRfdChain: pull one packet, all of it, off the ring. */
    method ReceiveRfdChain() returns (packet: Packet)
      requires Valid() && WholePacket(Published(ring))
      modifies this, shadows
      ensures Valid() && backend == old(backend) && failures == old(failures)
      ensures Known(old(Published(ring)), old(shadows[..]))
      ensures packet == Gather(old(Published(ring)), old(shadows[..]), Nothing())
      ensures held == old(held) + Taken(old(Published(ring)), old(shadows[..]))
      ensures ring.Responses() == old(ring.Responses())[PacketLength(old(Published(ring)))..]
    {
      hide Threaded, FreeIds, Stocked, Wired, Offered, Published, Gather, Taken, Known;
      hide SharedRing.Ring.Valid, SharedRing.Ring.Requests, SharedRing.Ring.Responses;
      packet := Nothing();
      ghost var all, sh0, waiting := Published(ring), shadows[..], ring.Responses();
      ResponsesKnown(this);
      ghost var done := 0;
      var more := true;
      while more
        invariant Valid() && backend == old(backend) && failures == old(failures)
        invariant 0 <= done <= |waiting| && ring.Responses() == waiting[done..]
        invariant more ==>
          && WholePacket(Published(ring)) && Known(Published(ring), shadows[..])
          && done + PacketLength(Published(ring)) == PacketLength(all)
          && Gather(Published(ring), shadows[..], packet) == Gather(all, sh0, Nothing())
          && held + Taken(Published(ring), shadows[..]) == old(held) + Taken(all, sh0)
        invariant !more ==>
          && done == PacketLength(all) && packet == Gather(all, sh0, Nothing()) && held == old(held) + Taken(all, sh0)
        decreases more, if more then |Published(ring)| else 0
      {
        ghost var p, sh, was := Published(ring), shadows[..], packet;
        more, packet := PullOne(packet);
        GatherOne(p, sh, was);
        if more {
          GatherAgrees(p[1..], sh, shadows[..], packet);
        }
        done := done + 1;
      }
    }

    /** One response of a packet. */
    method PullOne(acc: Packet) returns (more: bool, packet: Packet)
      requires Valid() && Published(ring) != [] && Known(Published(ring), shadows[..])
      modifies this, shadows
      ensures Valid() && backend == old(backend) && failures == old(failures)
      ensures var p := old(Published(ring)); var a := p[0]; var r := old(shadows[..])[a.id].rfd.value;
        && more == a.More() && packet == Add(acc, a, r) && held == old(held) + {r}
        && Published(ring) == p[1..] && old(ring.Responses()) != [] && ring.Responses() == old(ring.Responses())[1..]
        && Agree(p[1..], old(shadows[..]), shadows[..])
    {
      hide Threaded, FreeIds, Stocked, Loose, Wired, Offered, Rfds;
      hide SharedRing.Ring.Valid, SharedRing.Ring.Requests, SharedRing.Ring.Responses, SharedRing.TakeResponse;
      ghost var sh := shadows[..];
      ghost var x := Shadow(None, false, nextFreeId);
      ReceiveWired(sh, ring, backend, x);
      ApartFromFirst(sh, ring, backend, x);
      WellShaped(ring);
      var (e, rest) := SharedRing.TakeResponse(ring);
      PublishedTail(ring);
      var a := e.rsp;
      var r := ReceiveRfd(a.id);
      StockHeld(Rfds(shadows[..]), cache, held, granted, made, r);
      held := held + {r};
      packet := Add(acc, a, r);
      ring := rest;
      more := a.More();
    }
  }

  /** The responses that wait are for different buffers, so NoneLost applies to every packet. */
  lemma PacketApart(v: Receiver)
    requires v.Valid()
    ensures Known(Published(v.ring), v.shadows[..]) && Apart(Published(v.ring), v.shadows[..])
  {
    hide Threaded, FreeIds, Wired, Offered, SharedRing.Ring.Valid, SharedRing.Ring.Requests, SharedRing.Ring.Responses;
    ResponsesKnown(v);
    var p, sh := Published(v.ring), v.shadows[..];
    var slots := Rfds(sh);
    forall j, k | 0 <= j < k < |p| ensures sh[p[j].id].rfd != sh[p[k].id].rfd {
      ResponseOnce(sh, v.ring, v.backend, j, k);
      assert slots[p[j].id] == sh[p[j].id].rfd && slots[p[k].id] == sh[p[k].id].rfd;
    }
  }

  /** With a ring of one and no page for its buffer, the count is one short of nothing: it has wrapped. */
  method PageFailureExample() returns (v: Receiver)
    ensures v.Valid() && v.failures == 1 && v.pendingRfds + |v.cache| + |v.held| == 0 && v.currNumRfd == WRAP - 1
  {
    v := new Receiver(1, _ => NoPage);
  }

  /** The count of RFDs is exact unless page buffers could not be allocated: each failure leaves it one short. */
  lemma CountExactIff(v: Receiver)
    requires v.Valid() && v.pendingRfds + |v.cache| + |v.held| < WRAP && v.failures < WRAP
    ensures v.currNumRfd == v.pendingRfds + |v.cache| + |v.held| <==> v.failures == 0
  {
    hide Wrapped, Threaded, FreeIds, Stocked, OnRing;
    CounterExact(v.pendingRfds + |v.cache| + |v.held|, v.failures);
  }

  lemma CounterExact(t: int, f: int)
    requires 0 <= t < WRAP && 0 <= f < WRAP
    ensures Wrapped(t - f) == t <==> f == 0
  {
  }

  /** Between calls: pending buffers, ids in use and ring entries are the same number, which the ring can
      hold, and while an id is free the reserve holds a grant for it. */
  lemma NumbersAgree(v: Receiver)
    requires v.Valid()
    ensures v.pendingRfds == v.n - v.nrFreeIds == Diff(v.ring.reqPvt, v.ring.rspCons) <= v.n
    ensures v.nrFreeIds > 0 ==> v.grantsLeft > 0 && !v.ring.Full()
    ensures forall i :: 0 <= i < v.n ==> (v.shadows[i].inUse <==> i !in v.free)
    ensures |Elements(v.free)| == v.nrFreeIds
  {
    DistinctElements(v.free);
  }

  function Reversed(q: seq<nat>): (r: seq<nat>)
    ensures |r| == |q|
  {
    if q == [] then [] else Reversed(q[1..]) + [q[0]]
  }

  lemma {:induction false} ReversedMore(q: seq<nat>, x: nat)
    ensures Reversed(q + [x]) == [x] + Reversed(q)
  {
    if q == [] {
      assert [x][1..] == [] && q + [x] == [x];
    } else {
      assert (q + [x])[1..] == q[1..] + [x];
      ReversedMore(q[1..], x);
    }
  }

  /** What the cache holds after one more RFD. */
  lemma {:induction false} CachedMore(chain: seq<nat>, i: nat, room: nat, before: seq<nat>)
    requires i < |chain|
    ensures var c := Reversed(chain[..Min(i, room)]) + before;
      |c| == Min(i, room) + |before| &&
      Reversed(chain[..Min(i + 1, room)]) + before == if i < room then [chain[i]] + c else c
  {
    hide Reversed;
    if i < room {
      assert chain[..i + 1] == chain[..i] + [chain[i]];
      ReversedMore(chain[..i], chain[i]);
      assert [chain[i]] + (Reversed(chain[..i]) + before) == Reversed(chain[..i + 1]) + before;
    }
  }

  lemma CacheFits(v: Receiver)
    requires v.Valid()
    ensures |v.cache| <= MAX_CACHED
  {
  }

  ghost function Members(chain: seq<nat>, i: nat): set<nat>
    requires i <= |chain|
  {
    if i == 0 then {} else Members(chain, i - 1) + {chain[i - 1]}
  }

  lemma {:induction false} GatherOne(p: seq<Response>, sh: seq<Shadow>, acc: Packet)
    requires WholePacket(p) && Known(p, sh)
    ensures 0 <= p[0].id < |sh| && sh[p[0].id].rfd.Some? && (p[0].More() ==> Known(p[1..], sh))
    ensures var r := sh[p[0].id].rfd.value; var acc' := Add(acc, p[0], r);
      if p[0].More()
      then Gather(p, sh, acc) == Gather(p[1..], sh, acc') && Taken(p, sh) == {r} + Taken(p[1..], sh)
      else Gather(p, sh, acc) == acc' && Taken(p, sh) == {r}
  {
  }

  lemma ResponsesKnown(v: Receiver)
    requires v.Valid()
    ensures Known(Published(v.ring), v.shadows[..])
  {
    var p, sh := v.ring.Responses(), v.shadows[..];
    var ids := ResponseIds(p);
    forall k | 0 <= k < |p| ensures 0 <= p[k].id < |sh| && sh[p[k].id].rfd.Some? {
      assert ids[k] == p[k].id && p[k].id in multiset(ids);
      assert Copies(ids, v.backend, RequestIds(v.ring.Requests()), p[k].id) >= 1;
    }
  }

  lemma PublishedTail(ring: Ring)
    requires ring.Valid() && Published(ring) != []
    ensures RingSize(ring.n) && |ring.slots| == ring.n && ring.Responses() != []
    ensures Published(ring)[0] == ring.Responses()[0]
    ensures SharedRing.TakeResponse(ring).1.Valid()
    ensures Published(SharedRing.TakeResponse(ring).1) == Published(ring)[1..]
  {
    SharedRing.TakeResponseRemoves(ring);
  }

  /** Reusing the shadow of the first response leaves those of the others. */
  lemma ApartFromFirst(sh: seq<Shadow>, ring: Ring, back: multiset<int>, x: Shadow)
    requires OnRing(sh, ring, back) && Published(ring) != [] && Known(Published(ring), sh)
    ensures Agree(Published(ring)[1..], sh, sh[Published(ring)[0].id := x])
  {
    var p := Published(ring);
    var id, t := p[0].id, p[1..];
    forall k | 0 <= k < |t| ensures t[k].id != id {
      ResponseOnce(sh, ring, back, 0, k + 1);
    }
  }

  lemma NoneGranted(sh: seq<Shadow>, cache: seq<nat>, held: set<nat>, granted: set<nat>, made: nat)
    requires Stocked(Rfds(sh), cache, held, granted, made) && forall i :: 0 <= i < |sh| ==> sh[i].rfd == None
    ensures granted == {}
  {
    var slots := Rfds(sh);
    assert forall i :: 0 <= i < |slots| ==> slots[i] == None;
  }

  /** Taking the RFD out of a shadow in use does not touch the free list. */
  lemma EmptyShadow(sh: seq<Shadow>, head: int, free: seq<int>, id: int, x: Shadow)
    requires Threaded(sh, head, free) && FreeIds(sh, free) && 0 <= id < |sh| && sh[id].inUse
    requires x.inUse && x.next == sh[id].next
    ensures Threaded(sh[id := x], head, free) && FreeIds(sh[id := x], free)
  {
  }
}
