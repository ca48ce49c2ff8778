/** An SRB over a whole run: what the back end is asked to do for it (scsifilt/datapath.c, rings.c). */
module SrbRuns {
  import opened Blkif
  import opened Elevator
  import opened Datapath
  import opened DatapathSafety
  import opened DatapathRuns
  import opened DatapathOutcomes
  import opened SrbSplit
  import opened SrbRequests

  lemma {:induction false} MoveOfPiece(ps: seq<Piece>, v: Move)
    ensures v in Transfer(ps) <==> exists k :: 0 <= k < |ps| && v in Moves(ps[k])
  {
    hide Moves;
    if ps != [] {
      var m := |ps| - 1;
      var front := ps[..m];
      MoveOfPiece(front, v);
      assert v in Transfer(ps) <==> v in Transfer(front) || v in Moves(ps[m]);
      hide Transfer;
      if v in Transfer(front) {
        var k :| 0 <= k < |front| && v in Moves(front[k]);
        assert v in Moves(ps[k]);
      }
      if k :| 0 <= k < |ps| && v in Moves(ps[k]) {
        assert k < m ==> v in Moves(front[k]);
      }
    }
  }

  /** What requests that implement an SRB move between disk and memory is what the SRB asks for. */
  lemma {:induction false} MovesOfRequests(q: seq<Request>, irp: nat, pool: seq<nat>, srb: Srb,
                                           frames: int -> (int -> int), v: Move)
    requires WellFormed(srb) && Fits(srb) && Implements(q, irp, pool, srb, frames)
    ensures v in Plan(srb.start, Targets(srb, frames)) <==> exists r :: r in q && v in Moves(PieceOf(r))
  {
    hide WellFormed, Fits, Plan, Targets, Transfer, OnDisk, Buffered, Moves;
    var ps := PiecesOf(q);
    MoveOfPiece(ps, v);
    if k :| 0 <= k < |ps| && v in Moves(ps[k]) {
      assert q[k] in q && PieceOf(q[k]) == ps[k];
    }
    forall r | r in q && v in Moves(PieceOf(r)) ensures v in Transfer(ps) {
      var k :| 0 <= k < |q| && q[k] == r;
      assert ps[k] == PieceOf(r);
    }
  }

  /** Move `v` was carried out: by a request in direction `write` that the back end took off the ring and answered
      with OKAY. */
  ghost predicate CarriedOut(s: seq<Dev>, a: seq<Action>, i: nat, irp: nat, write: bool, v: Move)
    requires i < |s| && i <= |a|
  {
    exists r, m :: 0 <= m < i && Serves(s, a, m, r, irp, write, v)
  }

  ghost predicate Serves(s: seq<Dev>, a: seq<Action>, m: nat, r: Request, irp: nat, write: bool, v: Move)
    requires m < |s| && m < |a|
  {
    && a[m] == AAnswer(r, OKAY) && ConsumedBefore(s, a, m, r)
    && r.irp == irp && r.write == write && v in Moves(PieceOf(r))
  }

  /** In every run, for an SRB whose sector numbers fit: whatever the back end takes off the ring for its IRP goes in
      the SRB's direction and moves only sectors that the SRB asks for, each between its place on disk and its place in
      memory; and if the IRP succeeds every one of them was carried out. */
  lemma {:induction false} SrbServed(s: seq<Dev>, a: seq<Action>, j: nat, i: nat, pool: seq<nat>, srb: Srb,
                                     frames: int -> (int -> int))
    requires IsRun(s, a) && j < i < |s| && a[j].ASubmit? && WellFormed(srb) && Fits(srb)
    requires Implements(a[j].q, a[j].irp, pool, srb, frames)
    ensures forall k, r, v :: j < k < i && Consumes(s[k], a[k], r) && r.irp == a[j].irp && v in Moves(PieceOf(r)) ==>
      r.write == srb.write && v in Plan(srb.start, Targets(srb, frames))
    ensures a[j].irp in s[i].irps
    ensures s[i].irps[a[j].irp].status == Success ==>
      forall v :: v in Plan(srb.start, Targets(srb, frames)) ==> CarriedOut(s, a, i, a[j].irp, srb.write, v)
  {
    var irp, q := a[j].irp, a[j].q;
    assert |s| == |a| + 1;
    SubmissionServed(s, a, j, i);
    Directions(q, irp, pool, srb, frames);
    hide IsRun, WellFormed, Fits, Implements, Plan, Targets, Consumes, ConsumedBefore, Moves;
    forall k, r, v | j < k < i && Consumes(s[k], a[k], r) && r.irp == irp && v in Moves(PieceOf(r))
      ensures r.write == srb.write && v in Plan(srb.start, Targets(srb, frames))
    {
      MovesOfRequests(q, irp, pool, srb, frames, v);
    }
    if s[i].irps[irp].status == Success {
      forall v | v in Plan(srb.start, Targets(srb, frames)) ensures CarriedOut(s, a, i, irp, srb.write, v) {
        MovesOfRequests(q, irp, pool, srb, frames, v);
        var r :| r in q && v in Moves(PieceOf(r));
        var m :| 0 <= m < i && a[m] == AAnswer(r, OKAY) && ConsumedBefore(s, a, m, r);
        assert Serves(s, a, m, r, irp, srb.write, v);
      }
    }
  }

  lemma Directions(q: seq<Request>, irp: nat, pool: seq<nat>, srb: Srb, frames: int -> (int -> int))
    requires WellFormed(srb) && Implements(q, irp, pool, srb, frames)
    ensures forall r :: r in q ==> r.irp == irp && r.write == srb.write
  {
    hide WellFormed, Fits, Plan, Targets, Transfer, OnDisk, Buffered;
    forall r | r in q ensures r.irp == irp && r.write == srb.write {
      var k :| 0 <= k < |q| && q[k] == r;
    }
  }
}
