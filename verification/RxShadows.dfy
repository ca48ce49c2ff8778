/** The bookkeeping of net/receiver_common.c by value: the free list threaded through the shadows, where
    every receive buffer descriptor (RFD) is, and which ids are on the ring. */
module RxShadows {
  import opened Wrappers

  const INVALID: int := 0x7fff  // INVALID_RX_SHADOW_ID

  /** RX_SHADOW; an RFD is named by a number that stands for its address. */
  datatype Shadow = Shadow(rfd: Option<nat>, inUse: bool, next: int)

  // ------------------------------------------------------------ the free list

  function Link(free: seq<int>, k: nat): int {
    if k < |free| then free[k] else INVALID
  }

  /** `free` is the acyclic list that starts at `head` and follows `Next`. */
  ghost predicate Threaded(sh: seq<Shadow>, head: int, free: seq<int>) {
    && (forall k :: 0 <= k < |free| ==> 0 <= free[k] < |sh|)
    && (forall j, k :: 0 <= j < k < |free| ==> free[j] != free[k])
    && head == Link(free, 0)
    && (forall k :: 0 <= k < |free| ==> sh[free[k]].next == Link(free, k + 1))
  }

  /** The list holds exactly the ids not in use. */
  ghost predicate FreeIds(sh: seq<Shadow>, free: seq<int>) {
    forall i :: 0 <= i < |sh| ==>
      && (!sh[i].inUse <==> i in free)
      && (!sh[i].inUse ==> sh[i].rfd == None)
      && (sh[i].inUse ==> sh[i].next == INVALID)
  }

  lemma NothingThreaded(sh: seq<Shadow>)
    ensures Threaded(sh, INVALID, [])
  {
  }

  lemma Unthread(sh: seq<Shadow>, head: int, free: seq<int>, x: Shadow)
    requires Threaded(sh, head, free) && free != []
    ensures head == free[0] && Threaded(sh[head := x], sh[head].next, free[1..])
  {
    var tail := free[1..];
    forall k | 0 <= k < |tail| ensures sh[head := x][tail[k]].next == Link(tail, k + 1) {
      assert tail[k] == free[k + 1];
    }
  }

  lemma Thread(sh: seq<Shadow>, head: int, free: seq<int>, id: int, x: Shadow)
    requires Threaded(sh, head, free) && 0 <= id < |sh| && id !in free && x.next == head
    ensures Threaded(sh[id := x], id, [id] + free)
  {
    var f, sh' := [id] + free, sh[id := x];
    assert f[0] == id && f[1..] == free;
    forall k | 0 <= k < |f| ensures 0 <= f[k] < |sh| && sh'[f[k]].next == Link(f, k + 1) {
      if k > 0 {
        assert f[k] == free[k - 1] && free[k - 1] in free;
        assert Link(f, k + 1) == Link(free, k);
      }
    }
    forall j, k | 0 <= j < k < |f| ensures f[j] != f[k] {
      assert f[k] == free[k - 1] && free[k - 1] in free;
      if j > 0 {
        assert f[j] == free[j - 1];
      }
    }
  }

  lemma FreeIdsTaken(sh: seq<Shadow>, head: int, free: seq<int>, x: Shadow)
    requires Threaded(sh, head, free) && FreeIds(sh, free) && free != []
    requires x.inUse && x.next == INVALID
    ensures FreeIds(sh[free[0] := x], free[1..])
  {
    var tail := free[1..];
    forall i | 0 <= i < |sh| && i != free[0] ensures i in tail <==> i in free {
      if i in free {
        var k :| 0 <= k < |free| && free[k] == i;
        assert tail[k - 1] == i;
      }
    }
    assert free[0] !in tail;
  }

  lemma FreeIdsGiven(sh: seq<Shadow>, free: seq<int>, id: int, x: Shadow)
    requires FreeIds(sh, free) && 0 <= id < |sh| && !x.inUse && x.rfd == None
    ensures FreeIds(sh[id := x], [id] + free)
  {
    var f := [id] + free;
    forall i | 0 <= i < |sh| ensures i in f <==> i == id || i in free {
    }
  }

  function Below(n: nat): (s: set<int>)
    ensures |s| == n && forall i :: i in s <==> 0 <= i < n
  {
    if n == 0 then {} else Below(n - 1) + {n - 1}
  }

  ghost function Elements(s: seq<int>): set<int> {
    set k | 0 <= k < |s| :: s[k]
  }

  lemma {:induction false} DistinctElements(s: seq<int>)
    requires forall j, k :: 0 <= j < k < |s| ==> s[j] != s[k]
    ensures |Elements(s)| == |s|
  {
    if s != [] {
      var m := |s| - 1;
      var t := s[..m];
      DistinctElements(t);
      forall x | x in Elements(s) ensures x in Elements(t) + {s[m]} {
        var k :| 0 <= k < |s| && s[k] == x;
        if k < m {
          assert t[k] == x;
        }
      }
      assert Elements(s) == Elements(t) + {s[m]};
    }
  }

  lemma SubsetSize(a: set<int>, b: set<int>)
    requires a <= b
    ensures |a| <= |b|
  {
    assert b == a + (b - a);
  }

  /** While some id is in use the list is shorter than the array. */
  lemma ListShort(sh: seq<Shadow>, head: int, free: seq<int>, id: int)
    requires Threaded(sh, head, free) && 0 <= id < |sh| && id !in free
    ensures |free| < |sh|
  {
    DistinctElements(free);
    SubsetSize(Elements(free), Below(|sh|) - {id});
  }

  /** When none is, it is as long. */
  lemma ListFull(sh: seq<Shadow>, head: int, free: seq<int>)
    requires Threaded(sh, head, free) && forall i :: 0 <= i < |sh| ==> i in free
    ensures |free| == |sh|
  {
    DistinctElements(free);
    forall i | 0 <= i < |sh| ensures i in Elements(free) {
      assert i in free;
    }
    SubsetSize(Below(|sh|), Elements(free));
    SubsetSize(Elements(free), Below(|sh|));
  }

  // ------------------------------------------------------------ where the RFDs are

  function Rfds(sh: seq<Shadow>): (r: seq<Option<nat>>)
    ensures |r| == |sh|
  {
    seq(|sh|, i requires 0 <= i < |sh| => sh[i].rfd)
  }

  lemma RfdsUpdate(sh: seq<Shadow>, id: int, x: Shadow)
    requires 0 <= id < |sh|
    ensures Rfds(sh[id := x]) == Rfds(sh)[id := x.rfd]
  {
  }

  lemma RfdsAt(sh: seq<Shadow>, id: int)
    requires 0 <= id < |sh|
    ensures Rfds(sh)[id] == sh[id].rfd
  {
  }

  lemma RfdsSame(sh: seq<Shadow>, id: int, x: Shadow)
    requires 0 <= id < |sh| && x.rfd == sh[id].rfd
    ensures Rfds(sh[id := x]) == Rfds(sh)
  {
  }

  /** Each RFD is in one place: a shadow, the cache, or held by the layers above.  Only those in shadows are
      granted to the back end. */
  ghost predicate Stocked(slots: seq<Option<nat>>, cache: seq<nat>, held: set<nat>, granted: set<nat>, made: nat) {
    && (forall i, j :: 0 <= i < j < |slots| && slots[i].Some? ==> slots[i] != slots[j])
    && (forall i :: 0 <= i < |slots| && slots[i].Some? ==> slots[i].value < made && slots[i].value in granted)
    && (forall r :: r in granted ==> Some(r) in slots && r !in held && r !in cache)
    && (forall j, k :: 0 <= j < k < |cache| ==> cache[j] != cache[k])
    && (forall k :: 0 <= k < |cache| ==> cache[k] < made && cache[k] !in held)
    && (forall r :: r in held ==> r < made)
  }

  /** An RFD in the hands of the code, in none of those places. */
  ghost predicate Loose(r: nat, slots: seq<Option<nat>>, cache: seq<nat>, held: set<nat>, granted: set<nat>,
                        made: nat) {
    r < made && r !in granted && r !in cache && r !in held && Some(r) !in slots
  }

  lemma LooseNotGranted(r: nat, slots: seq<Option<nat>>, cache: seq<nat>, held: set<nat>, granted: set<nat>, made: nat)
    requires Loose(r, slots, cache, held, granted, made)
    ensures r !in granted
  {
  }

  lemma StockPlaced(slots: seq<Option<nat>>, cache: seq<nat>, held: set<nat>, granted: set<nat>, made: nat, id: int,
                    r: nat)
    requires Stocked(slots, cache, held, granted, made) && Loose(r, slots, cache, held, granted, made)
    requires 0 <= id < |slots| && slots[id] == None
    ensures Stocked(slots[id := Some(r)], cache, held, granted + {r}, made)
  {
    var s := slots[id := Some(r)];
    forall q | q in granted + {r} ensures Some(q) in s {
      if q == r {
        assert s[id] == Some(q);
      } else {
        var k :| 0 <= k < |slots| && slots[k] == Some(q);
        assert s[k] == Some(q);
      }
    }
  }

  lemma {:induction false} StockRemoved(slots: seq<Option<nat>>, cache: seq<nat>, held: set<nat>, granted: set<nat>,
                                        made: nat, id: int)
    requires Stocked(slots, cache, held, granted, made) && 0 <= id < |slots| && slots[id].Some?
    ensures var r, s := slots[id].value, slots[id := None];
      && r in granted
      && Stocked(s, cache, held, granted - {r}, made)
      && Loose(r, s, cache, held, granted - {r}, made)
  {
    var r, s := slots[id].value, slots[id := None];
    assert Some(r) !in s;
    forall q | q in granted - {r} ensures Some(q) in s {
      var k :| 0 <= k < |slots| && slots[k] == Some(q);
      assert s[k] == Some(q);
    }
  }

  lemma StockCached(slots: seq<Option<nat>>, cache: seq<nat>, held: set<nat>, granted: set<nat>, made: nat, r: nat)
    requires Stocked(slots, cache, held, granted, made) && Loose(r, slots, cache, held, granted, made)
    ensures Stocked(slots, [r] + cache, held, granted, made)
  {
  }

  lemma StockUncached(slots: seq<Option<nat>>, cache: seq<nat>, held: set<nat>, granted: set<nat>, made: nat)
    requires Stocked(slots, cache, held, granted, made) && cache != []
    ensures Stocked(slots, cache[1..], held, granted, made)
    ensures Loose(cache[0], slots, cache[1..], held, granted, made)
  {
    var tail := cache[1..];
    assert forall k :: 0 <= k < |tail| ==> tail[k] == cache[k + 1];
    forall i | 0 <= i < |slots| && slots[i].Some? ensures slots[i].value != cache[0] {
    }
  }

  lemma StockHeld(slots: seq<Option<nat>>, cache: seq<nat>, held: set<nat>, granted: set<nat>, made: nat, r: nat)
    requires Stocked(slots, cache, held, granted, made) && Loose(r, slots, cache, held, granted, made)
    ensures Stocked(slots, cache, held + {r}, granted, made) && |held + {r}| == |held| + 1
  {
  }

  lemma StockHandedBack(slots: seq<Option<nat>>, cache: seq<nat>, held: set<nat>, granted: set<nat>, made: nat, r: nat)
    requires Stocked(slots, cache, held, granted, made) && r in held
    ensures Stocked(slots, cache, held - {r}, granted, made) && |held - {r}| == |held| - 1
    ensures Loose(r, slots, cache, held - {r}, granted, made)
  {
  }

  lemma StockEmpty(sh: seq<Shadow>)
    requires forall i :: 0 <= i < |sh| ==> sh[i].rfd == None
    ensures Stocked(Rfds(sh), [], {}, {}, 0)
  {
  }

  lemma StockNew(slots: seq<Option<nat>>, cache: seq<nat>, held: set<nat>, granted: set<nat>, made: nat)
    requires Stocked(slots, cache, held, granted, made)
    ensures Stocked(slots, cache, held, granted, made + 1)
    ensures Loose(made, slots, cache, held, granted, made + 1)
  {
  }

  // ------------------------------------------------------------ ids on the ring

  function Copies(rsp: seq<int>, back: multiset<int>, req: seq<int>, i: int): nat {
    multiset(rsp)[i] + back[i] + multiset(req)[i]
  }

  /** Each id in use is once on the ring or in the back end's hands, and no other is. */
  ghost predicate Wired(sh: seq<Shadow>, rsp: seq<int>, back: multiset<int>, req: seq<int>) {
    forall i :: Copies(rsp, back, req, i) == if 0 <= i < |sh| && sh[i].inUse then 1 else 0
  }

  lemma WiredRequest(sh: seq<Shadow>, rsp: seq<int>, back: multiset<int>, req: seq<int>, id: int, x: Shadow)
    requires Wired(sh, rsp, back, req) && 0 <= id < |sh| && !sh[id].inUse && x.inUse
    ensures Wired(sh[id := x], rsp, back, req + [id])
  {
    forall i ensures Copies(rsp, back, req + [id], i) == Copies(rsp, back, req, i) + if i == id then 1 else 0 {
    }
  }

  lemma WiredConsume(sh: seq<Shadow>, rsp: seq<int>, back: multiset<int>, req: seq<int>)
    requires Wired(sh, rsp, back, req) && req != []
    ensures Wired(sh, rsp, back + multiset{req[0]}, req[1..])
  {
    assert req == [req[0]] + req[1..];
    forall i ensures Copies(rsp, back + multiset{req[0]}, req[1..], i) == Copies(rsp, back, req, i) {
    }
  }

  lemma WiredAnswer(sh: seq<Shadow>, rsp: seq<int>, back: multiset<int>, req: seq<int>, id: int)
    requires Wired(sh, rsp, back, req) && id in back
    ensures Wired(sh, rsp + [id], back - multiset{id}, req)
  {
    forall i ensures Copies(rsp + [id], back - multiset{id}, req, i) == Copies(rsp, back, req, i) {
    }
  }

  /** A response carries an id in use, and only once. */
  lemma WiredReceive(sh: seq<Shadow>, rsp: seq<int>, back: multiset<int>, req: seq<int>, x: Shadow)
    requires Wired(sh, rsp, back, req) && rsp != [] && !x.inUse
    ensures 0 <= rsp[0] < |sh| && sh[rsp[0]].inUse
    ensures Wired(sh[rsp[0] := x], rsp[1..], back, req)
  {
    assert rsp == [rsp[0]] + rsp[1..];
    assert Copies(rsp, back, req, rsp[0]) >= 1;
    forall i ensures Copies(rsp[1..], back, req, i) == Copies(rsp, back, req, i) - if i == rsp[0] then 1 else 0 {
    }
  }

  lemma Twice(rsp: seq<int>, back: multiset<int>, req: seq<int>, j: nat, k: nat)
    requires j < k < |rsp| && rsp[j] == rsp[k]
    ensures Copies(rsp, back, req, rsp[j]) >= 2
  {
    assert rsp == rsp[..j] + [rsp[j]] + rsp[j + 1..k] + [rsp[k]] + rsp[k + 1..];
  }

  /** Filling in the RFD of a shadow does not matter to the ring. */
  lemma WiredSame(sh: seq<Shadow>, rsp: seq<int>, back: multiset<int>, req: seq<int>, id: int, x: Shadow)
    requires Wired(sh, rsp, back, req) && 0 <= id < |sh| && x.inUse == sh[id].inUse
    ensures Wired(sh[id := x], rsp, back, req)
  {
  }
}
