/** Intrusive doubly linked lists (inc/scsiboot.h) and the scheduler that is built
    from them (scsifilt/schedule.c), on the heap.

    A `Link` is a LIST_ENTRY together with the request that embeds it; an anchor is
    a Link whose request is never looked at.  A list is described by its anchor and
    the sequence of its links.
  */
module ScheduleLists {
  import opened Elevator

  class Link {
    var Flink: Link
    var Blink: Link
    const req: Request

    /** An unlinked entry; InitializeListHead makes it an anchor. */
    constructor (req: Request)
      ensures this.req == req && IsList(this, [])
    {
      Flink, Blink := this, this;
      this.req := req;
    }
  }

  ghost predicate Distinct(c: seq<Link>) {
    forall i, j :: 0 <= i < j < |c| ==> c[i] != c[j]
  }

  function Succ(i: nat, n: nat): nat {
    if i + 1 == n then 0 else i + 1
  }

  function Pred(i: nat, n: nat): int {
    if i == 0 then n - 1 else i - 1
  }

  /** `c` is a closed chain: forward links lead around it and back links lead back. */
  ghost predicate Closed(c: seq<Link>)
    reads c
  {
    forall i :: 0 <= i < |c| ==> c[i].Flink == c[Succ(i, |c|)] && c[i].Blink == c[Pred(i, |c|)]
  }

  /** The list anchored at `head` consists of exactly `nodes`, in order. */
  ghost predicate IsList(head: Link, nodes: seq<Link>)
    reads head, nodes
  {
    Distinct([head] + nodes) && Closed([head] + nodes)
  }

  function Requests(nodes: seq<Link>): (q: seq<Request>)
    ensures |q| == |nodes| && forall i :: 0 <= i < |q| ==> q[i] == nodes[i].req
  {
    seq(|nodes|, i requires 0 <= i < |nodes| => nodes[i].req)
  }

  method InitializeListHead(head: Link)
    modifies head
    ensures IsList(head, [])
  {
    head.Flink, head.Blink := head, head;
  }

  lemma DistinctInsert(c: seq<Link>, k: nat, e: Link)
    requires Distinct(c) && k <= |c| && e !in c
    ensures Distinct(c[..k] + [e] + c[k..])
  {
    var d := c[..k] + [e] + c[k..];
    forall i, j | 0 <= i < j < |d| ensures d[i] != d[j] {
      assert d[i] == if i < k then c[i] else if i == k then e else c[i - 1];
      assert d[j] == if j < k then c[j] else if j == k then e else c[j - 1];
    }
  }

  lemma DistinctConcat(c: seq<Link>, s: seq<Link>)
    requires Distinct(c) && Distinct(s) && forall x :: x in c ==> x !in s
    ensures Distinct(c + s)
  {
    forall i, j | 0 <= i < j < |c + s| ensures (c + s)[i] != (c + s)[j] {
      if i < |c| <= j {
        assert c[i] in c && s[j - |c|] in s;
      }
    }
  }

  /** Link `e` in directly before the `k`th link, or before the anchor. */
  method InsertBefore(ghost head: Link, ghost nodes: seq<Link>, ghost k: nat, ple: Link, e: Link)
    requires IsList(head, nodes) && k <= |nodes| && e !in [head] + nodes
    requires ple == if k == |nodes| then head else nodes[k]
    modifies head, nodes, e
    ensures IsList(head, nodes[..k] + [e] + nodes[k..])
  {
    ghost var c := [head] + nodes;
    ghost var d := c[..k + 1] + [e] + c[k + 1..];
    assert ple == c[Succ(k, |c|)];
    WidenedLinks(c, k + 1, e);
    LinkIn(d, k + 1, ple, e);
    assert d == [head] + (nodes[..k] + [e] + nodes[k..]);
  }

  /** The four pointer updates that put `e` between its neighbours in `d`. */
  method LinkIn(ghost d: seq<Link>, ghost m: nat, ple: Link, e: Link)
    requires 0 < m < |d| && Distinct(d)
    requires e == d[m] && ple == d[Succ(m, |d|)] && ple.Blink == d[m - 1]
    requires forall i :: 0 <= i < |d| && i != m && i != m - 1 ==> d[i].Flink == d[Succ(i, |d|)]
    requires forall i :: 0 <= i < |d| && i != m && i != Succ(m, |d|) ==> d[i].Blink == d[Pred(i, |d|)]
    modifies ple, ple.Blink, e
    ensures Closed(d)
  {
    e.Blink := ple.Blink;
    e.Flink := ple;
    ple.Blink.Flink := e;
    ple.Blink := e;
  }

  /** Putting a new link into a closed chain leaves every other link right. */
  lemma {:induction false} WidenedLinks(c: seq<Link>, m: nat, e: Link)
    requires Distinct(c) && Closed(c) && 0 < m <= |c| && e !in c
    ensures var d := c[..m] + [e] + c[m..];
      && Distinct(d)
      && d[Succ(m, |d|)].Blink == d[m - 1]
      && (forall i :: 0 <= i < |d| && i != m && i != m - 1 ==> d[i].Flink == d[Succ(i, |d|)])
      && (forall i :: 0 <= i < |d| && i != m && i != Succ(m, |d|) ==> d[i].Blink == d[Pred(i, |d|)])
  {
    var d := c[..m] + [e] + c[m..];
    DistinctInsert(c, m, e);
    forall i | 0 <= i < |d| && i != m && i != m - 1 ensures d[i].Flink == d[Succ(i, |d|)] {
      var j := if i < m then i else i - 1;
      assert d[i] == c[j] && c[j].Flink == c[Succ(j, |c|)];
    }
    forall i | 0 <= i < |d| && i != m && i != Succ(m, |d|) ensures d[i].Blink == d[Pred(i, |d|)] {
      var j := if i < m then i else i - 1;
      assert d[i] == c[j] && c[j].Blink == c[Pred(j, |c|)];
    }
    assert d[Succ(m, |d|)] == c[Succ(m - 1, |c|)];
  }

  /** Unlink the first entry of a non-empty list. */
  method RemoveEntryList(ghost head: Link, ghost nodes: seq<Link>, e: Link)
    requires IsList(head, nodes) && nodes != [] && e == nodes[0]
    modifies head, nodes
    ensures IsList(head, nodes[1..])
  {
    ghost var c := [head] + nodes;
    ghost var d := [head] + nodes[1..];
    assert c[1] == e && c[1].Blink == c[0] && c[1].Flink == c[Succ(1, |c|)];
    e.Blink.Flink := e.Flink;
    e.Flink.Blink := e.Blink;
    forall i | 0 <= i < |d|
      ensures d[i].Flink == d[Succ(i, |d|)] && d[i].Blink == d[Pred(i, |d|)]
    {
      if i > 0 {
        assert d[i] == c[i + 1];
      } else {
        assert c[0].Blink == head || c[0].Blink == c[|c| - 1];
      }
    }
    DistinctWithoutSecond(head, nodes);
  }

  lemma DistinctWithoutSecond(head: Link, nodes: seq<Link>)
    requires nodes != [] && Distinct([head] + nodes)
    ensures Distinct([head] + nodes[1..])
  {
    var c, d := [head] + nodes, [head] + nodes[1..];
    forall i, j | 0 <= i < j < |d| ensures d[i] != d[j] {
      assert d[i] == c[if i == 0 then 0 else i + 1] && d[j] == c[j + 1];
    }
  }

  lemma EmptyIffSelfLinked(head: Link, nodes: seq<Link>)
    requires IsList(head, nodes)
    ensures head.Flink == head <==> nodes == []
    ensures nodes != [] ==> head.Flink == nodes[0]
    ensures head.Blink == ([head] + nodes)[|nodes|]
  {
    var c := [head] + nodes;
    assert c[0].Flink == c[Succ(0, |c|)] && c[0].Blink == c[Pred(0, |c|)];
  }

  /** XmListSplice: append the links of one list to another.  The emptied anchor is
      left dangling, as in the original. */
  method Splice(list: Link, ghost nodes: seq<Link>, sublist: Link, ghost sub: seq<Link>)
    requires IsList(list, nodes) && IsList(sublist, sub)
    requires forall x :: x in [list] + nodes ==> x !in [sublist] + sub
    modifies list, nodes, sub
    ensures IsList(list, nodes + sub)
  {
    EmptyIffSelfLinked(sublist, sub);
    if sublist.Flink == sublist {
      assert nodes + sub == nodes;
      return;
    }
    ghost var d := [list] + nodes + sub;
    assert d == [list] + (nodes + sub);
    SplicedLinks(list, nodes, sublist, sub);
    assert list.Blink in d by {
      assert d[|nodes|] in d;
    }
    assert sublist.Flink in d && sublist.Blink in d;
    JoinSeams(d, |nodes| + 1, list, sublist.Flink, sublist.Blink);
  }

  /** The four pointer updates of the splice, on the links `d` that are to form the list. */
  method JoinSeams(ghost d: seq<Link>, ghost n: nat, list: Link, first: Link, last: Link)
    requires 0 < n < |d| && Distinct(d)
    requires list == d[0] && list.Blink == d[n - 1] && first == d[n] && last == d[|d| - 1]
    requires forall i :: 0 <= i < |d| && i != n - 1 && i != |d| - 1 ==> d[i].Flink == d[i + 1]
    requires forall i :: 0 < i < |d| && i != n ==> d[i].Blink == d[i - 1]
    modifies list, list.Blink, first, last
    ensures Closed(d)
  {
    list.Blink.Flink := first;
    first.Blink := list.Blink;
    list.Blink := last;
    last.Flink := list;
  }

  /** Before the splice, the concatenation is linked except at its two seams. */
  lemma {:induction false} SplicedLinks(list: Link, nodes: seq<Link>, sublist: Link, sub: seq<Link>)
    requires IsList(list, nodes) && IsList(sublist, sub) && sub != []
    requires forall x :: x in [list] + nodes ==> x !in [sublist] + sub
    ensures var c := [list] + nodes; var d := c + sub;
      && Distinct(d)
      && sublist.Flink == d[|c|] && sublist.Blink == d[|d| - 1] && list.Blink == d[|c| - 1]
      && (forall i :: 0 <= i < |d| && i != |c| - 1 && i != |d| - 1 ==> d[i].Flink == d[i + 1])
      && (forall i :: 0 < i < |d| && i != |c| ==> d[i].Blink == d[i - 1])
  {
    var c, s := [list] + nodes, [sublist] + sub;
    var d := c + sub;
    EmptyIffSelfLinked(list, nodes);
    EmptyIffSelfLinked(sublist, sub);
    forall i, j | 0 <= i < j < |sub| ensures sub[i] != sub[j] {
      assert s[i + 1] == sub[i] && s[j + 1] == sub[j];
    }
    DistinctConcat(c, sub);
    forall i | 0 <= i < |d| && i != |c| - 1 && i != |d| - 1 ensures d[i].Flink == d[i + 1] {
      if i < |c| {
        assert c[i].Flink == c[Succ(i, |c|)];
      } else {
        assert d[i] == s[i - |c| + 1];
      }
    }
    forall i | 0 < i < |d| && i != |c| ensures d[i].Blink == d[i - 1] {
      if i < |c| {
        assert c[i].Blink == c[Pred(i, |c|)];
      } else {
        assert d[i] == s[i - |c| + 1];
      }
    }
  }

  /** XmListTransplant: move a whole list to a fresh anchor. */
  method Transplant(dest: Link, src: Link, ghost nodes: seq<Link>)
    requires IsList(src, nodes) && dest !in [src] + nodes
    modifies dest, src, nodes
    ensures IsList(dest, nodes) && IsList(src, [])
  {
    assert src !in nodes by {
      assert ([src] + nodes)[0] == src;
      assert forall i :: 0 <= i < |nodes| ==> ([src] + nodes)[i + 1] == nodes[i];
    }
    InitializeListHead(dest);
    assert IsList(src, nodes);
    Splice(dest, [], src, nodes);
    assert [] + nodes == nodes;
    assert IsList(dest, nodes);
    InitializeListHead(src);
  }

  /** The walk of enqueue_request: find the link before which `req` belongs. */
  method FindPlace(head: Link, ghost nodes: seq<Link>, req: Request) returns (ple: Link, ghost k: nat)
    requires IsList(head, nodes)
    ensures k == Position(Requests(nodes), req.start)
    ensures ple == if k == |nodes| then head else nodes[k]
  {
    ghost var c := [head] + nodes;
    k := 0;
    ple := head.Flink;
    assert c[0].Flink == c[Succ(0, |c|)];
    while ple != head
      invariant k <= |nodes|
      invariant ple == if k == |nodes| then head else nodes[k]
      invariant forall i :: 0 <= i < k ==> nodes[i].req.start <= req.start
      decreases |nodes| - k
    {
      assert c[k + 1] == nodes[k] && c[k + 1].Flink == c[Succ(k + 1, |c|)];
      if ple.req.start > req.start {
        break;
      }
      ple := ple.Flink;
      k := k + 1;
    }
    if k < |nodes| {
      assert c[0] != c[k + 1];
    }
    PositionUnique(Requests(nodes), req.start, k);
  }

  /** Link `e` into an ordered list, after every request that starts no later. */
  method InsertInOrder(head: Link, ghost nodes: seq<Link>, e: Link) returns (ghost nodes': seq<Link>)
    requires IsList(head, nodes) && e !in [head] + nodes
    modifies head, nodes, e
    ensures IsList(head, nodes') && Requests(nodes') == Insert(Requests(nodes), e.req)
    ensures |nodes'| == |nodes| + 1 && forall x :: x in nodes' <==> x in nodes || x == e
  {
    var ple;
    ghost var k;
    ple, k := FindPlace(head, nodes, e.req);
    InsertBefore(head, nodes, k, ple, e);
    nodes' := nodes[..k] + [e] + nodes[k..];
    InsertedLinks(nodes, k, e);
  }

  lemma {:induction false} InsertedLinks(nodes: seq<Link>, k: nat, e: Link)
    requires k == Position(Requests(nodes), e.req.start)
    ensures var nodes' := nodes[..k] + [e] + nodes[k..];
      && Requests(nodes') == Insert(Requests(nodes), e.req)
      && forall x :: x in nodes' <==> x in nodes || x == e
  {
    var nodes', q := nodes[..k] + [e] + nodes[k..], Requests(nodes);
    var r := q[..k] + [e.req] + q[k..];
    forall i | 0 <= i < |nodes'| ensures nodes'[i].req == r[i] {
    }
    assert Requests(nodes') == r;
    assert nodes == nodes[..k] + nodes[k..];
  }

  /** The same, and the other list of the schedule is not disturbed. */
  method InsertBeside(head: Link, ghost nodes: seq<Link>, e: Link, ghost otherHead: Link, ghost other: seq<Link>)
    returns (ghost nodes': seq<Link>)
    requires IsList(head, nodes) && e !in [head] + nodes
    requires IsList(otherHead, other) && e !in [otherHead] + other
    requires forall x :: x in [otherHead] + other ==> x !in nodes && x != head
    modifies head, nodes, e
    ensures IsList(head, nodes') && Requests(nodes') == Insert(Requests(nodes), e.req)
    ensures |nodes'| == |nodes| + 1 && forall x :: x in nodes' <==> x in nodes || x == e
    ensures IsList(otherHead, other)
  {
    ghost var c := [otherHead] + other;
    nodes' := InsertInOrder(head, nodes, e);
    assert forall x :: x in c ==> unchanged(x);
    assert forall i :: 0 <= i < |c| ==> c[i] in c;
  }

  class Scheduler {
    const curSched: Link
    const nextSched: Link
    var nrScheduled: int
    ghost var cur: seq<Link>
    ghost var next: seq<Link>

    /** Two proper lists that share no link. */
    ghost predicate Linked()
      reads this, curSched, nextSched, cur, next
    {
      && IsList(curSched, cur)
      && IsList(nextSched, next)
      && (forall x :: x in [curSched] + cur ==> x !in [nextSched] + next)
    }

    ghost predicate Valid()
      reads this, curSched, nextSched, cur, next
    {
      Linked() && nrScheduled == |cur| + |next|
    }

    /** The schedule as the elevator sees it. */
    ghost function View(): Schedule
      reads this
    {
      Schedule(Requests(cur), Requests(next))
    }

    /** initialise_schedule */
    constructor ()
      ensures Valid() && View() == Schedule([], []) && fresh(curSched) && fresh(nextSched)
    {
      var none := Request(0, 0, false, 0, [], 0);
      curSched := new Link(none);
      nextSched := new Link(none);
      nrScheduled := 0;
      cur, next := [], [];
    }

    /** If the current sweep is empty, the next one becomes current. */
    method FlipIfEmpty()
      requires Linked()
      modifies `cur, `next, curSched, nextSched, next
      ensures Linked() && View() == Flip(old(View()))
      ensures cur + next == old(cur + next) && (cur == old(cur) || cur == old(next))
      ensures (next == old(next) || next == [])
    {
      EmptyIffSelfLinked(curSched, cur);
      if curSched.Flink == curSched {
        Transplant(curSched, nextSched, next);
        cur, next := next, [];
      }
    }

    /** get_next_request: the request to serve next, still queued, or null. */
    method GetNextRequest() returns (res: Link?)
      requires Valid()
      modifies `cur, `next, curSched, nextSched, next
      ensures Valid() && View() == Flip(old(View())) && cur + next == old(cur + next)
      ensures res == null <==> cur == []
      ensures res != null ==> res == cur[0] && res.req == Dequeue(View()).0
    {
      FlipIfEmpty();
      EmptyIffSelfLinked(curSched, cur);
      if curSched.Flink == curSched {
        return null;
      }
      return curSched.Flink;
    }

    /** The first part of start_this_request: the request just returned by
        GetNextRequest leaves the schedule. */
    method RemoveNext(e: Link)
      requires Valid() && cur != [] && e == cur[0]
      modifies `cur, `nrScheduled, curSched, cur
      ensures Valid() && (e.req, View()) == Dequeue(old(View()))
      ensures cur == old(cur)[1..] && next == old(next)
    {
      assert forall x :: x in [curSched] + cur[1..] ==> x in [curSched] + cur;
      assert forall x :: x in [nextSched] + next ==> x !in cur && x != curSched;
      ghost var q := View();
      assert Dequeue(q) == (e.req, Schedule(q.cur[1..], q.next));
      ghost var c := [nextSched] + next;
      RemoveEntryList(curSched, cur, e);
      assert IsList(nextSched, next) by {
        assert forall x :: x in c ==> unchanged(x);
        assert forall i :: 0 <= i < |c| ==> c[i] in c;
      }
      nrScheduled := nrScheduled - 1;
      cur := cur[1..];
      assert Requests(cur) == q.cur[1..];
    }

    /** The second part of enqueue_request, once the schedule has been flipped. */
    method Place(e: Link)
      requires Linked() && e !in [curSched] + cur && e !in [nextSched] + next
      requires cur == [] ==> next == []
      modifies `cur, `next, curSched, nextSched, cur, next, e
      ensures Linked() && View() == Enqueue(old(View()), e.req)
    {
      EmptyIffSelfLinked(curSched, cur);
      if curSched.Flink == curSched {
        InsertBefore(curSched, cur, 0, curSched, e);
        assert cur[..0] + [e] + cur[0..] == [e];
        cur := [e];
      } else if e.req.start < curSched.Flink.req.start {
        // serving it in this sweep would be a backwards seek
        next := InsertBeside(nextSched, next, e, curSched, cur);
      } else {
        cur := InsertBeside(curSched, cur, e, nextSched, next);
      }
    }

    /** enqueue_request */
    method EnqueueRequest(e: Link)
      requires Valid() && e !in [curSched] + cur && e !in [nextSched] + next
      modifies this, curSched, nextSched, cur, next, e
      ensures Valid() && View() == Enqueue(old(View()), e.req)
    {
      nrScheduled := nrScheduled + 1;
      FlipIfEmpty();
      assert forall x :: x in cur || x in next ==> x in old(cur) || x in old(next);
      Place(e);
      EnqueueLength(old(View()), e.req);
    }
  }

  lemma {:induction false} PositionUnique(q: seq<Request>, k: int, p: nat)
    requires p <= |q| && (forall i :: 0 <= i < p ==> q[i].start <= k) && (p < |q| ==> q[p].start > k)
    ensures Position(q, k) == p
  {
  }
}
