/** The effect of an SRB, direct or bounced, from the SRB alone (scsifilt/datapath.c).

    The caller's buffer is a list of sectors.  For a direct transfer the sectors are
    in memory where the requests say; for a bounced one they are elsewhere, and are
    copied into the bounce buffers before a write and out of them after a read.
  */
module SrbTransfer {
  import opened Blkif
  import opened SrbSplit
  import opened Bounce

  /** The buffer of a direct transfer, as memory has it. */
  ghost predicate InMemory(b: Srb, frames: int -> (int -> int), mem: map<Place, Data>, user: seq<Data>)
    requires WellFormed(b) && |user| == b.sectors
  {
    !IsBounced(b) ==> Holds(mem, Targets(b, frames), user)
  }

  ghost predicate Holds(mem: map<Place, Data>, w: seq<Place>, user: seq<Data>) {
    |w| == |user| && forall k :: 0 <= k < |w| ==> w[k] in mem && mem[w[k]] == user[k]
  }

  lemma {:induction false} WriteHeld(mem: map<Place, Data>, disk: int -> Data, start: int, w: seq<Place>,
                                     user: seq<Data>, x: int)
    requires Holds(mem, w, user)
    ensures forall v :: v in Plan(start, w) ==> v.place in mem
    ensures AfterWrite(mem, disk, Plan(start, w), x) == if start <= x < start + |user| then user[x - start] else disk(x)
  {
    var t := Plan(start, w);
    forall v | v in t ensures v.place in mem {
      var k :| 0 <= k < |t| && t[k] == v;
      assert v.place == w[k];
    }
    WriteStores(mem, disk, start, w, x);
  }

  /** Memory when the requests of a write are handed to the back end. */
  ghost function Loaded(b: Srb, frames: int -> (int -> int), ps: seq<Piece>, mem: map<Place, Data>,
                        user: seq<Data>): map<Place, Data>
    requires WellFormed(b) && |user| == b.sectors && Buffered(b, ps)
  {
    if IsBounced(b) then FillAll(mem, user, b.start, b.sectorSize, ps, frames, |ps|) else mem
  }

  /** The disk holds the buffer from sector `start` on, and is otherwise as it was. */
  ghost predicate Stored(b: Srb, user: seq<Data>, disk: int -> Data, x: int, data: Data)
    requires |user| == b.sectors
  {
    data == if b.start <= x < b.start + b.sectors then user[x - b.start] else disk(x)
  }

  lemma {:induction false} WriteEffect(b: Srb, frames: int -> (int -> int), ps: seq<Piece>, mem: map<Place, Data>,
                                       user: seq<Data>,
                                       disk: int -> Data, x: int)
    requires WellFormed(b) && FramesDistinct(b.mdl, frames, b.sectors) && |user| == b.sectors
    requires InMemory(b, frames, mem, user) && Buffered(b, ps)
    requires Transfer(ps) == Plan(b.start, Targets(b, frames))
    ensures var loaded := Loaded(b, frames, ps, mem, user);
      && (forall v :: v in Transfer(ps) ==> v.place in loaded)
      && Stored(b, user, disk, x, AfterWrite(loaded, disk, Transfer(ps), x))
  {
    hide SectorSize, Covers, Bounced, Transfer, AfterWrite, FramesDistinct, FillAll, BouncePieces, Wanted, Holds, Plan;
    if IsBounced(b) {
      BouncedWrite(b.start, b.sectorSize, b.buffer, b.mdl, frames, ps, mem, user, disk, x);
    } else {
      WriteHeld(mem, disk, b.start, Targets(b, frames), user, x);
    }
  }

  /** A write, whichever way it goes: disk sector `start + k` receives sector `k` of the caller's buffer and no other
      sector changes.  It is refused exactly if bounce buffers are needed and too few can be had. */
  method WriteSrb(b: Srb, frames: int -> (int -> int), available: nat, mem: map<Place, Data>, user: seq<Data>,
                  disk: int -> Data) returns (ok: bool, ps: seq<Piece>)
    requires WellFormed(b) && FramesDistinct(b.mdl, frames, b.sectors) && |user| == b.sectors
    requires InMemory(b, frames, mem, user)
    ensures ok <==> !IsBounced(b) || b.sectors <= available * (MAX_SEGMENTS * PerPage(b.sectorSize))
    ensures ok && Fits(b) ==>
      && Buffered(b, ps)
      && var loaded := Loaded(b, frames, ps, mem, user);
         && (forall v :: v in Transfer(ps) ==> v.place in loaded)
         && forall x :: Stored(b, user, disk, x, AfterWrite(loaded, disk, Transfer(ps), x))
  {
    hide WellFormed, IsBounced, Transfer, Plan, Targets, Fits, FramesDistinct, InMemory, AfterWrite, Loaded, Stored,
      BouncePieces, PieceBounds, TotalBytes;
    ok, ps := SplitSrb(b, frames, available);
    if ok && Fits(b) {
      WriteEffect(b, frames, ps, mem, user, disk, 0);
      forall x ensures Stored(b, user, disk, x, AfterWrite(Loaded(b, frames, ps, mem, user), disk, Transfer(ps), x)) {
        WriteEffect(b, frames, ps, mem, user, disk, x);
      }
    }
  }

  // ------------------------------------------------------------ reading

  /** Every request completes, in any order. */
  ghost predicate Completes(order: seq<int>, n: int) {
    (forall j :: 0 <= j < |order| ==> 0 <= order[j] < n) && forall g :: 0 <= g < n ==> g in order
  }

  /** The caller's buffer when the requests of a read have completed in that order. */
  ghost function Received(b: Srb, frames: int -> (int -> int), ps: seq<Piece>, mem: map<Place, Data>, user: seq<Data>,
                          order: seq<int>)
    : seq<Data>
    requires WellFormed(b) && |user| == b.sectors && Buffered(b, ps) && Completes(order, |ps|)
    requires forall p :: p in Targets(b, frames) ==> p in mem
  {
    if IsBounced(b) then DrainAll(mem, user, b.start, b.sectorSize, ps, frames, order)
    else Copy(mem, Targets(b, frames))
  }

  /** What memory holds in the places `w`. */
  function Copy(mem: map<Place, Data>, w: seq<Place>): seq<Data>
    requires forall p :: p in w ==> p in mem
  {
    seq(|w|, k requires 0 <= k < |w| => mem[w[k]])
  }

  /** The buffer holds the disk's sectors from `start` on. */
  ghost predicate Fetched(b: Srb, disk: int -> Data, user: seq<Data>) {
    |user| == b.sectors && forall k :: 0 <= k < |user| ==> user[k] == disk(b.start + k)
  }

  lemma {:induction false} ReadEffect(b: Srb, frames: int -> (int -> int), ps: seq<Piece>, mem: map<Place, Data>,
                                      user: seq<Data>,
                                      disk: int -> Data, order: seq<int>)
    requires WellFormed(b) && FramesDistinct(b.mdl, frames, b.sectors) && |user| == b.sectors && Buffered(b, ps)
    requires Transfer(ps) == Plan(b.start, Targets(b, frames)) && Completes(order, |ps|)
    ensures var mem' := AfterRead(mem, disk, Transfer(ps));
      && (forall p :: p in Targets(b, frames) ==> p in mem')
      && Fetched(b, disk, Received(b, frames, ps, mem', user, order))
  {
    var n, s, w := b.sectors, b.sectorSize, Targets(b, frames);
    var mem' := AfterRead(mem, disk, Transfer(ps));
    WantedDistinct(b.buffer, b.mdl, frames, s, n);
    hide SectorSize, Covers, Bounced, Transfer, AfterRead, FramesDistinct, DrainAll, BouncePieces, Wanted, Plan,
      DistinctPlaces, Completes, Copy, Fetched;
    AllDelivered(mem, disk, b.start, w);
    if IsBounced(b) {
      BouncedBuffer(b, frames, ps, mem, user, disk, order);
    } else {
      DirectBuffer(b, mem, disk, w);
    }
  }

  lemma {:induction false} DirectBuffer(b: Srb, mem: map<Place, Data>, disk: int -> Data, w: seq<Place>)
    requires DistinctPlaces(w) && |w| == b.sectors
    ensures forall p :: p in w ==> p in AfterRead(mem, disk, Plan(b.start, w))
    ensures Fetched(b, disk, Copy(AfterRead(mem, disk, Plan(b.start, w)), w))
  {
    hide AfterRead, DistinctPlaces, Plan;
    AllDelivered(mem, disk, b.start, w);
    AllRead(mem, disk, b.start, w);
    var got := Copy(AfterRead(mem, disk, Plan(b.start, w)), w);
    forall k | 0 <= k < |w| ensures got[k] == disk(b.start + k) {
      assert ReadInto(AfterRead(mem, disk, Plan(b.start, w)), disk, b.start, w, k);
    }
  }

  lemma {:induction false} AllRead(mem: map<Place, Data>, disk: int -> Data, start: int, w: seq<Place>)
    requires DistinctPlaces(w)
    ensures forall k :: 0 <= k < |w| ==> ReadInto(AfterRead(mem, disk, Plan(start, w)), disk, start, w, k)
  {
    hide AfterRead, DistinctPlaces;
    forall k | 0 <= k < |w| ensures ReadInto(AfterRead(mem, disk, Plan(start, w)), disk, start, w, k) {
      ReadDelivers(mem, disk, start, w, k);
    }
  }

  ghost predicate ReadInto(mem: map<Place, Data>, disk: int -> Data, start: int, w: seq<Place>, k: int)
    requires 0 <= k < |w|
  {
    w[k] in mem && mem[w[k]] == disk(start + k)
  }

  lemma {:induction false} BouncedBuffer(b: Srb, frames: int -> (int -> int), ps: seq<Piece>, mem: map<Place, Data>,
                                         user: seq<Data>,
                                         disk: int -> Data, order: seq<int>)
    requires WellFormed(b) && IsBounced(b) && FramesDistinct(b.mdl, frames, b.sectors) && |user| == b.sectors
    requires Buffered(b, ps)
    requires Transfer(ps) == Plan(b.start, Targets(b, frames)) && Completes(order, |ps|)
    requires forall p :: p in Targets(b, frames) ==> p in AfterRead(mem, disk, Transfer(ps))
    ensures Fetched(b, disk, DrainAll(AfterRead(mem, disk, Transfer(ps)), user, b.start, b.sectorSize,
                                      ps, frames, order))
  {
    hide SectorSize, Covers, Bounced, Transfer, AfterRead, FramesDistinct, DrainAll, BouncePieces, Plan;
    var got := DrainAll(AfterRead(mem, disk, Transfer(ps)), user, b.start, b.sectorSize, ps, frames, order);
    forall k | 0 <= k < b.sectors ensures got[k] == disk(b.start + k) {
      BouncedRead(b.start, b.sectorSize, b.buffer, b.mdl, frames, ps, mem, user, disk, order, k);
    }
  }

  /** A read, whichever way it goes and in whatever order its requests complete: sector `k` of the caller's buffer is
      disk sector `start + k`, and memory outside the targets is untouched. */
  method ReadSrb(b: Srb, frames: int -> (int -> int), available: nat, mem: map<Place, Data>, user: seq<Data>,
                 disk: int -> Data) returns (ok: bool, ps: seq<Piece>)
    requires WellFormed(b) && FramesDistinct(b.mdl, frames, b.sectors) && |user| == b.sectors
    ensures ok <==> !IsBounced(b) || b.sectors <= available * (MAX_SEGMENTS * PerPage(b.sectorSize))
    ensures ok && Fits(b) ==>
      && Buffered(b, ps)
      && var mem' := AfterRead(mem, disk, Transfer(ps));
         && (forall p :: p in Targets(b, frames) ==> p in mem')
         && (forall order :: Completes(order, |ps|) ==> Fetched(b, disk, Received(b, frames, ps, mem', user, order)))
         && (forall p :: p !in Targets(b, frames) ==> Untouched(mem, mem', p))
  {
    hide WellFormed, IsBounced, Transfer, Plan, Targets, Fits, FramesDistinct, AfterRead, Received, Fetched, Completes,
      BouncePieces, PieceBounds, TotalBytes, Untouched;
    ok, ps := SplitSrb(b, frames, available);
    if ok && Fits(b) {
      ghost var mem' := AfterRead(mem, disk, Transfer(ps));
      AnyOrder(|ps|);
      ReadEffect(b, frames, ps, mem, user, disk, Upwards(|ps|));
      forall order | Completes(order, |ps|) ensures Fetched(b, disk, Received(b, frames, ps, mem', user, order)) {
        ReadEffect(b, frames, ps, mem, user, disk, order);
      }
      forall p | p !in Targets(b, frames) ensures Untouched(mem, mem', p) {
        Undisturbed(mem, disk, b.start, Targets(b, frames), p);
      }
    }
  }

  ghost predicate Untouched(mem: map<Place, Data>, mem': map<Place, Data>, p: Place) {
    (p in mem' <==> p in mem) && (p in mem ==> mem'[p] == mem[p])
  }

  lemma {:induction false} Undisturbed(mem: map<Place, Data>, disk: int -> Data, start: int, w: seq<Place>, p: Place)
    requires p !in w
    ensures Untouched(mem, AfterRead(mem, disk, Plan(start, w)), p)
  {
    ReadTouchesNoOther(mem, disk, start, w, p);
  }

  function Upwards(n: nat): seq<int> {
    seq(n, i => i)
  }

  lemma AnyOrder(n: nat)
    ensures Completes(Upwards(n), n)
  {
    forall g | 0 <= g < n ensures g in Upwards(n) {
      assert Upwards(n)[g] == g;
    }
  }
}
