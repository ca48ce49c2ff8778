/** The requests that stand for an SRB in the datapath (scsifilt/datapath.c). */
module SrbRequests {
  import opened Blkif
  import opened Elevator
  import opened Measures
  import opened SrbSplit

  /** What a request asks the back end to do. */
  function PieceOf(r: Request): Piece {
    Piece(r.start, r.bytes, r.fragments)
  }

  function PiecesOf(q: seq<Request>): (ps: seq<Piece>)
    ensures |ps| == |q|
  {
    seq(|q|, k requires 0 <= k < |q| => PieceOf(q[k]))
  }

  predicate Carries(ps: seq<Piece>) {
    forall k :: 0 <= k < |ps| ==> 0 < ps[k].bytes
  }

  /** The requests that initialise_requests fills in. */
  function RequestsOf(irp: nat, write: bool, pool: seq<nat>, ps: seq<Piece>): (q: seq<Request>)
    requires |ps| <= |pool| && Carries(ps)
    ensures |q| == |ps|
  {
    seq(|ps|, k requires 0 <= k < |ps| =>
      Request(pool[k], irp, write, ps[k].start, ps[k].fragments, ps[k].bytes))
  }

  lemma PiecesBack(irp: nat, write: bool, pool: seq<nat>, ps: seq<Piece>)
    requires |ps| <= |pool| && Carries(ps)
    ensures PiecesOf(RequestsOf(irp, write, pool, ps)) == ps
  {
  }

  /** `q` follows the disk from the first sector of the SRB to its last without a gap. */
  ghost predicate OnDisk(srb: Srb, q: seq<Request>)
    requires srb.sectorSize > 0
  {
    var s := srb.sectorSize;
    && (q == [] <==> srb.sectors == 0)
    && (q != [] ==> q[0].start == srb.start && q[|q| - 1].start + q[|q| - 1].bytes / s == srb.start + srb.sectors)
    && (forall k :: 0 <= k < |q| - 1 ==> q[k + 1].start == q[k].start + q[k].bytes / s)
  }

  /** The requests `q` of IRP `irp` do what the SRB asks for: they are as many as were counted, have one to eleven
      segments each, go in the SRB's direction, cover its sectors on disk one after another, have its bytes between
      them, and match disk sectors with the places of the buffer, if only those can be written down at all. */
  ghost predicate Implements(q: seq<Request>, irp: nat, pool: seq<nat>, srb: Srb, frames: int -> (int -> int))
    requires WellFormed(srb)
  {
    && |q| == Needed(srb) <= |pool|
    && (forall k :: 0 <= k < |q| ==>
          && q[k].id == pool[k] && q[k].irp == irp && q[k].write == srb.write
          && 1 <= q[k].segments <= MAX_SEGMENTS && 0 < q[k].bytes)
    && OnDisk(srb, q)
    && Sum(q, BytesOf(irp)) == srb.sectors * srb.sectorSize
    && Buffered(srb, PiecesOf(q))
    && (Transfer(PiecesOf(q)) == Plan(srb.start, Targets(srb, frames)) <==> Fits(srb))
  }

  lemma {:induction false} BytesOfRequests(irp: nat, write: bool, pool: seq<nat>, ps: seq<Piece>)
    requires |ps| <= |pool| && Carries(ps)
    ensures Sum(RequestsOf(irp, write, pool, ps), BytesOf(irp)) == TotalBytes(ps)
    decreases |ps|
  {
    if ps != [] {
      var m := |ps| - 1;
      var q, front := RequestsOf(irp, write, pool, ps), ps[..m];
      assert q == RequestsOf(irp, write, pool, front) + [q[m]];
      BytesOfRequests(irp, write, pool, front);
      SumConcat(RequestsOf(irp, write, pool, front), [q[m]], BytesOf(irp));
      SumOne(q[m], BytesOf(irp));
    }
  }

  lemma AllCarry(ps: seq<Piece>)
    requires forall p :: p in ps ==> PieceBounds(p)
    ensures Carries(ps) && forall k :: 0 <= k < |ps| ==> 1 <= |ps[k].fragments| <= MAX_SEGMENTS
  {
    forall k | 0 <= k < |ps| ensures 0 < ps[k].bytes && 1 <= |ps[k].fragments| <= MAX_SEGMENTS {
      assert PieceBounds(ps[k]);
    }
  }

  /** A split yields such requests. */
  lemma SplitImplements(irp: nat, pool: seq<nat>, srb: Srb, frames: int -> (int -> int), ps: seq<Piece>)
    requires WellFormed(srb) && |ps| == Needed(srb) <= |pool| && (forall p :: p in ps ==> PieceBounds(p))
    requires TotalBytes(ps) == srb.sectorSize * srb.sectors && (srb.sectors == 0 <==> ps == [])
    requires Consecutive(srb.start, srb.sectorSize, srb.sectors, ps) && Buffered(srb, ps)
    requires Transfer(ps) == Plan(srb.start, Targets(srb, frames)) <==> Fits(srb)
    ensures Carries(ps) && Implements(RequestsOf(irp, srb.write, pool, ps), irp, pool, srb, frames)
  {
    Positive(srb);
    hide Transfer, Plan, Targets, Fits, Buffered, WellFormed, TotalBytes, PieceBounds, Needed, OnDisk, Consecutive, Sum,
      PiecesOf;
    AllCarry(ps);
    PiecesBack(irp, srb.write, pool, ps);
    BytesOfRequests(irp, srb.write, pool, ps);
    RequestsOnDisk(irp, pool, srb, ps);
    assert srb.sectors * srb.sectorSize == srb.sectorSize * srb.sectors;
  }

  lemma Positive(srb: Srb)
    requires WellFormed(srb)
    ensures srb.sectorSize > 0
  {
  }

  lemma RequestsOnDisk(irp: nat, pool: seq<nat>, srb: Srb, ps: seq<Piece>)
    requires srb.sectorSize > 0 && |ps| <= |pool| && Carries(ps) && (srb.sectors == 0 <==> ps == [])
    requires Consecutive(srb.start, srb.sectorSize, srb.sectors, ps)
    ensures OnDisk(srb, RequestsOf(irp, srb.write, pool, ps))
  {
  }
}
