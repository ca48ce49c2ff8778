/** Bounced transfers from end to end (scsifilt/datapath.c).

    The data of an unaligned buffer is copied into the bounce buffers before a
    write is started, and out of them as each read completes.  The buffer is
    seen as a list of sectors, whatever their alignment in memory.
  */
module Bounce {
  import opened Bits
  import opened Numbers
  import opened Blkif
  import opened SrbSplit

  function Group(s: int): int
    requires s > 0
  {
    MAX_SEGMENTS * PerPage(s)
  }

  /** The memcpy of initialise_sfri_bounce: `k` sectors of the buffer, from sector `from` on. */
  function CopyIn(mem: map<Place, Data>, frame: int -> int, s: int, user: seq<Data>, from: int,
                  k: nat): map<Place, Data>
    requires s > 0 && PerPage(s) > 0 && 0 <= from && from + k <= |user|
  {
    if k == 0 then mem
    else CopyIn(mem, frame, s, user, from, k - 1)[InBounce(frame, s, k - 1) := user[from + k - 1]]
  }

  /** The memcpy of complete_this_request, the other way. */
  function CopyOut(mem: map<Place, Data>, frame: int -> int, s: int, user: seq<Data>, from: int, k: nat): (r: seq<Data>)
    requires s > 0 && PerPage(s) > 0 && 0 <= from && from + k <= |user|
    requires forall i :: 0 <= i < k ==> InBounce(frame, s, i) in mem
    ensures |r| == |user|
  {
    user[..from] + seq(k, i requires 0 <= i < k => mem[InBounce(frame, s, i)]) + user[from + k..]
  }

  /** The sectors of the `g`th request: where they start in the buffer, and how many. */
  ghost function RequestSectors(s: int, n: int, g: int): int
    requires s > 0
  {
    Min(n - g * Group(s), Group(s))
  }

  lemma PieceSectors(start: int, s: int, n: int, ps: seq<Piece>, g: int)
    requires s > 0 && PerPage(s) > 0 && BouncePieces(start, s, n, ps) && 0 <= g < |ps|
    ensures ps[g].start - start == g * Group(s) && ps[g].bytes / s == RequestSectors(s, n, g)
  {
    QuotientExact(s, RequestSectors(s, n, g));
  }

  lemma PieceInside(start: int, s: int, n: int, ps: seq<Piece>, g: int)
    requires s > 0 && PerPage(s) > 0 && BouncePieces(start, s, n, ps) && 0 <= g < |ps|
    ensures var from, k := ps[g].start - start, ps[g].bytes / s; 0 <= from && 0 < k && from + k <= n
  {
    PieceSectors(start, s, n, ps, g);
    assert g * Group(s) >= 0;
  }

  /** The buffer copied into the bounce buffers of a write, request by request. */
  ghost function FillAll(mem: map<Place, Data>, user: seq<Data>, start: int, s: int, ps: seq<Piece>,
                         frames: int -> (int -> int), g: nat): map<Place, Data>
    requires s > 0 && PerPage(s) > 0 && BouncePieces(start, s, |user|, ps) && g <= |ps|
  {
    if g == 0 then mem
    else
      PieceInside(start, s, |user|, ps, g - 1);
      CopyIn(FillAll(mem, user, start, s, ps, frames, g - 1), frames(g - 1), s, user,
             ps[g - 1].start - start, ps[g - 1].bytes / s)
  }

  // ------------------------------------------------------------ sectors and requests

  /** Sector `i` of request `g` is sector `g * Group + i` of the transfer. */
  lemma PlaceOf(frames: int -> (int -> int), s: int, n: nat, g: nat, i: nat)
    requires s > 0 && PerPage(s) > 0 && i < Group(s) && g * Group(s) + i < n
    ensures BouncedRun(frames, s, n)[g * Group(s) + i] == InBounce(frames(g), s, i)
  {
    RemainderUnique(g * Group(s) + i, Group(s), g, i);
  }

  lemma {:induction false} CopyInPlaces(mem: map<Place, Data>, frame: int -> int, s: int, user: seq<Data>, from: int,
                                        k: nat, p: Place)
    requires s > 0 && PerPage(s) > 0 && 0 <= from && from + k <= |user|
    requires forall i :: 0 <= i < k ==> InBounce(frame, s, i) != p
    ensures var m := CopyIn(mem, frame, s, user, from, k); (p in m <==> p in mem) && (p in m ==> m[p] == mem[p])
  {
    if k > 0 {
      CopyInPlaces(mem, frame, s, user, from, k - 1, p);
    }
  }

  lemma {:induction false} CopyInHolds(mem: map<Place, Data>, frame: int -> int, s: int, user: seq<Data>, from: int,
                                       k: nat, i: nat)
    requires s > 0 && PerPage(s) > 0 && 0 <= from && from + k <= |user| && i < k
    requires forall a, b :: 0 <= a < b < k ==> InBounce(frame, s, a) != InBounce(frame, s, b)
    ensures var m, p := CopyIn(mem, frame, s, user, from, k), InBounce(frame, s, i); p in m && m[p] == user[from + i]
  {
    if i < k - 1 {
      CopyInHolds(mem, frame, s, user, from, k - 1, i);
      assert InBounce(frame, s, i) != InBounce(frame, s, k - 1);
    }
  }

  /** The places of request `g`, among those of the transfer. */
  lemma RequestPlaces(frames: int -> (int -> int), s: int, n: nat, g: nat, i: nat)
    requires s > 0 && PerPage(s) > 0 && g * Group(s) < n && i < RequestSectors(s, n, g)
    ensures 0 <= g * Group(s) + i < n && |BouncedRun(frames, s, n)| == n
    ensures BouncedRun(frames, s, n)[g * Group(s) + i] == InBounce(frames(g), s, i)
  {
    assert g * Group(s) >= 0;
    PlaceOf(frames, s, n, g, i);
  }

  lemma RequestPlacesDistinct(frames: int -> (int -> int), s: int, n: nat, g: nat)
    requires s > 0 && PerPage(s) > 0 && g * Group(s) < n && DistinctPlaces(BouncedRun(frames, s, n))
    ensures forall a, b :: 0 <= a < b < RequestSectors(s, n, g) ==>
      InBounce(frames(g), s, a) != InBounce(frames(g), s, b)
  {
    hide BouncedRun, InBounce, Group, Sectors;
    forall a, b | 0 <= a < b < RequestSectors(s, n, g) ensures InBounce(frames(g), s, a) != InBounce(frames(g), s, b) {
      RequestPlaces(frames, s, n, g, a);
      RequestPlaces(frames, s, n, g, b);
    }
  }

  lemma OtherPlaces(frames: int -> (int -> int), s: int, n: nat, g: nat, k: nat)
    requires s > 0 && PerPage(s) > 0 && g * Group(s) < n && DistinctPlaces(BouncedRun(frames, s, n)) && k < n
    requires !(g * Group(s) <= k < g * Group(s) + RequestSectors(s, n, g))
    ensures |BouncedRun(frames, s, n)| == n
    ensures forall i :: 0 <= i < RequestSectors(s, n, g) ==> InBounce(frames(g), s, i) != BouncedRun(frames, s, n)[k]
  {
    forall i | 0 <= i < RequestSectors(s, n, g) ensures InBounce(frames(g), s, i) != BouncedRun(frames, s, n)[k] {
      RequestPlaces(frames, s, n, g, i);
    }
  }

  /** After the first `g` requests are filled, the sectors they cover are in their bounce buffers. */
  lemma {:induction false} FillHolds(mem: map<Place, Data>, user: seq<Data>, start: int, s: int, ps: seq<Piece>,
                                     frames: int -> (int -> int), g: nat, k: nat)
    requires s > 0 && PerPage(s) > 0 && BouncePieces(start, s, |user|, ps) && g <= |ps|
    requires DistinctPlaces(BouncedRun(frames, s, |user|)) && k < |user| && k < g * Group(s)
    ensures |BouncedRun(frames, s, |user|)| == |user|
    ensures var m, p := FillAll(mem, user, start, s, ps, frames, g), BouncedRun(frames, s, |user|)[k];
      p in m && m[p] == user[k]
  {
    hide BouncedRun, InBounce, CopyIn, DistinctPlaces;
    var h, n := g - 1, |user|;
    var was := FillAll(mem, user, start, s, ps, frames, h);
    PieceInside(start, s, n, ps, h);
    PieceSectors(start, s, n, ps, h);
    var from, count := h * Group(s), RequestSectors(s, n, h);
    assert g * Group(s) == from + Group(s);
    if k < from {
      FillHolds(mem, user, start, s, ps, frames, h, k);
      OtherPlaces(frames, s, n, h, k);
      CopyInPlaces(was, frames(h), s, user, from, count, BouncedRun(frames, s, n)[k]);
    } else {
      RequestPlaces(frames, s, n, h, k - from);
      RequestPlacesDistinct(frames, s, n, h);
      CopyInHolds(was, frames(h), s, user, from, count, k - from);
    }
  }

  /** The bounce buffers copied out as the requests complete, in whatever order. */
  ghost function DrainAll(mem: map<Place, Data>, user: seq<Data>, start: int, s: int, ps: seq<Piece>,
                          frames: int -> (int -> int), order: seq<int>): (r: seq<Data>)
    requires s > 0 && PerPage(s) > 0 && BouncePieces(start, s, |user|, ps)
    requires forall j :: 0 <= j < |order| ==> 0 <= order[j] < |ps|
    requires forall p :: p in BouncedRun(frames, s, |user|) ==> p in mem
    ensures |r| == |user|
  {
    if order == [] then user
    else
      var g := order[|order| - 1];
      PieceInside(start, s, |user|, ps, g);
      PieceSectors(start, s, |user|, ps, g);
      PresentPlaces(mem, frames, s, |user|, g);
      CopyOut(mem, frames(g), s, DrainAll(mem, user, start, s, ps, frames, order[..|order| - 1]),
              ps[g].start - start, ps[g].bytes / s)
  }

  lemma PresentPlaces(mem: map<Place, Data>, frames: int -> (int -> int), s: int, n: nat, g: nat)
    requires s > 0 && PerPage(s) > 0 && g * Group(s) < n
    requires forall p :: p in BouncedRun(frames, s, n) ==> p in mem
    ensures forall i :: 0 <= i < RequestSectors(s, n, g) ==> InBounce(frames(g), s, i) in mem
  {
    hide BouncedRun, InBounce, Group, Sectors;
    forall i | 0 <= i < RequestSectors(s, n, g) ensures InBounce(frames(g), s, i) in mem {
      RequestPlaces(frames, s, n, g, i);
    }
  }

  /** A sector is copied out when its request completes, and is not touched otherwise. */
  lemma {:induction false} DrainHolds(mem: map<Place, Data>, user: seq<Data>, start: int, s: int, ps: seq<Piece>,
                                      frames: int -> (int -> int), order: seq<int>, g: nat, i: nat)
    requires s > 0 && PerPage(s) > 0 && BouncePieces(start, s, |user|, ps)
    requires forall j :: 0 <= j < |order| ==> 0 <= order[j] < |ps|
    requires forall p :: p in BouncedRun(frames, s, |user|) ==> p in mem
    requires g * Group(s) < |user| && i < RequestSectors(s, |user|, g)
    ensures 0 <= g * Group(s) + i < |user| && |BouncedRun(frames, s, |user|)| == |user|
    ensures var k := g * Group(s) + i;
      && BouncedRun(frames, s, |user|)[k] in mem
      && DrainAll(mem, user, start, s, ps, frames, order)[k] ==
           if g in order then mem[BouncedRun(frames, s, |user|)[k]] else user[k]
  {
    hide BouncedRun, InBounce, BouncePieces;
    var n, k := |user|, g * Group(s) + i;
    RequestPlaces(frames, s, n, g, i);
    assert BouncedRun(frames, s, n)[k] in BouncedRun(frames, s, n);
    if order != [] {
      var m := |order| - 1;
      var before, h := order[..m], order[m];
      DrainHolds(mem, user, start, s, ps, frames, before, g, i);
      PieceInside(start, s, n, ps, h);
      PieceSectors(start, s, n, ps, h);
      PresentPlaces(mem, frames, s, n, h);
      assert order == before + [h];
      if h != g {
        Separate(g, h, i, Group(s));
      }
    }
  }

  /** Different requests cover different sectors. */
  lemma Separate(g: int, h: int, i: int, group: int)
    requires g != h && 0 <= i < group
    ensures !(h * group <= g * group + i < h * group + group)
  {
    if h < g {
      MulLe(h + 1, g, group);
    } else {
      MulLe(g + 1, h, group);
    }
  }

  // ------------------------------------------------------------ the effect of a bounced transfer

  /** A bounced write stores the buffer on disk, sector by sector, and changes no other disk sector. */
  lemma BouncedWrite(start: int, s: int, buf: nat, m: Mdl, frames: int -> (int -> int), ps: seq<Piece>,
                     mem: map<Place, Data>, user: seq<Data>, disk: int -> Data, x: int)
    requires SectorSize(s) && s > 0 && PerPage(s) > 0 && Bounced(buf, s) && Covers(m, buf, |user| * s)
    requires FramesDistinct(m, frames, |user|) && BouncePieces(start, s, |user|, ps) && |user| <= |ps| * Group(s)
    requires Transfer(ps) == Plan(start, Wanted(buf, m, frames, s, |user|))
    ensures var filled := FillAll(mem, user, start, s, ps, frames, |ps|);
      && (forall v :: v in Transfer(ps) ==> v.place in filled)
      && AfterWrite(filled, disk, Transfer(ps), x) == if start <= x < start + |user| then user[x - start] else disk(x)
  {
    hide SectorSize, Covers, BouncedRun, BouncePieces, FillAll, AfterWrite, DistinctPlaces, Transfer, FramesDistinct,
      Bounced;
    var n, w := |user|, Wanted(buf, m, frames, s, |user|);
    var filled := FillAll(mem, user, start, s, ps, frames, |ps|);
    WantedDistinct(buf, m, frames, s, n);
    forall k | 0 <= k < n ensures w[k] in filled && filled[w[k]] == user[k] {
      FillHolds(mem, user, start, s, ps, frames, |ps|, k);
    }
    WriteStores(filled, disk, start, w, x);
  }

  /** A bounced read, whose requests complete in any order, leaves the disk's data in the buffer. */
  lemma BouncedRead(start: int, s: int, buf: nat, m: Mdl, frames: int -> (int -> int), ps: seq<Piece>,
                    mem: map<Place, Data>, user: seq<Data>, disk: int -> Data, order: seq<int>, k: nat)
    requires SectorSize(s) && s > 0 && PerPage(s) > 0 && Bounced(buf, s) && Covers(m, buf, |user| * s)
    requires FramesDistinct(m, frames, |user|) && BouncePieces(start, s, |user|, ps) && |user| <= |ps| * Group(s)
    requires Transfer(ps) == Plan(start, Wanted(buf, m, frames, s, |user|))
    requires forall j :: 0 <= j < |order| ==> 0 <= order[j] < |ps|
    requires (forall g :: 0 <= g < |ps| ==> g in order) && k < |user|
    ensures var mem' := AfterRead(mem, disk, Transfer(ps));
      && (forall p :: p in BouncedRun(frames, s, |user|) ==> p in mem')
      && DrainAll(mem', user, start, s, ps, frames, order)[k] == disk(start + k)
  {
    hide SectorSize, Covers, BouncedRun, BouncePieces, DrainAll, AfterRead, DistinctPlaces, Transfer, FramesDistinct,
      Bounced,
      Group, RequestSectors, Plan;
    var n, w := |user|, BouncedRun(frames, s, |user|);
    var mem' := AfterRead(mem, disk, Transfer(ps));
    WantedDistinct(buf, m, frames, s, n);
    AllDelivered(mem, disk, start, w);
    ReadDelivers(mem, disk, start, w, k);
    var g, i := Located(k, s, n, |ps|);
    DrainHolds(mem', user, start, s, ps, frames, order, g, i);
  }

  lemma AllDelivered(mem: map<Place, Data>, disk: int -> Data, start: int, w: seq<Place>)
    requires DistinctPlaces(w)
    ensures forall p :: p in w ==> p in AfterRead(mem, disk, Plan(start, w))
  {
    hide AfterRead, DistinctPlaces;
    forall p | p in w ensures p in AfterRead(mem, disk, Plan(start, w)) {
      var j :| 0 <= j < |w| && w[j] == p;
      ReadDelivers(mem, disk, start, w, j);
    }
  }

  /** The request that covers sector `k`, and the sector's place in it. */
  lemma {:induction false} Located(k: nat, s: int, n: int, requests: int) returns (g: nat, i: nat)
    requires s > 0 && PerPage(s) > 0 && k < n <= requests * Group(s)
    ensures g < requests && k == g * Group(s) + i && g * Group(s) < n && i < RequestSectors(s, n, g)
  {
    var group := Group(s);
    QuotientWithin(k, group, requests);
    g, i := k / group, k % group;
    assert k == group * g + i;
  }
}
