/** The single-producer, single-consumer byte buffer of sockpipe/Circle.cpp.

    Producer and consumer run without a lock.  A step is one access to a shared
    field or one byte copied, so `Insert` may be overtaken by the consumer
    between its two reads of `out` and between any two bytes it writes, and the
    consumer's view of `in` may be out of date by the time it commits.  The
    state records what was inserted and what the consumer saw and committed.
  */
module Circle {
  import opened Numbers
  import opened Bytes

  datatype Producer =
    | Resting
    | Asking(data: seq<int>)                      // about to read `out` in QueryInsertable
    | Testing(data: seq<int>, insert: int)        // about to compare `in` with `out` again
    | Filling(data: seq<int>, inserted: int, here: int, k: int)  // copying to the top of the buffer
    | Copying(data: seq<int>, inserted: int, from: int, to: int, insert: int, k: int, tin: int)

  datatype Consumer =
    | Waiting
    | Reading(len: int, seen: seq<int>)    // using the bytes QueryContiguousRetrievable pointed at
    | Committing(n: int, seen: seq<int>)   // about to read `in` and check
    | Leaving(n: int, seen: seq<int>)      // about to store `out`

  datatype State = State(buffer: seq<int>, length: int, into: int, out: int,
                         producer: Producer, consumer: Consumer,
                         inserted: seq<int>, removed: seq<int>)

  /** Circle::QueryInsertable, on the values it read. */
  function Insertable(tin: int, tout: int, length: int): int {
    if tin == tout then length - 1
    else if tin > tout then tout + (length - tin) - 1
    else tout - tin - 1
  }

  /** Circle::QueryRetrievable, on the values it read. */
  function Retrievable(tin: int, tout: int, length: int): int {
    if tin >= tout then tin - tout else tin + (length - tout)
  }

  /** Circle::QueryContiguousRetrievable, on the values it read. */
  function Contiguous(tin: int, tout: int, length: int): int {
    if tout <= tin then tin - tout else length - tout
  }

  predicate Shape(buffer: seq<int>, length: int, into: int, out: int) {
    && 0 < length == |buffer| && 0 <= into < length && 0 <= out < length
  }

  /** The bytes in the buffer, oldest first. */
  function Contents(buffer: seq<int>, length: int, into: int, out: int): seq<int>
    requires Shape(buffer, length, into, out)
  {
    Circular(buffer, out, Retrievable(into, out, length))
  }

  /** The state after Initialize. */
  ghost predicate Fresh(s: State) {
    && 0 < s.length == |s.buffer| && s.into == 0 && s.out == 0
    && s.producer == Resting && s.consumer == Waiting && s.inserted == [] && s.removed == []
  }

  datatype Action =
    | Insert(data: seq<int>) | QueryInsertable | Retest | CopyByte | Publish
    | QueryContiguous | ReadByte | CommitRetrieved(n: int) | CheckCommit | Release

  predicate Enabled(s: State, a: Action) {
    match a
    case Insert(_) => s.producer.Resting?
    case QueryInsertable => s.producer.Asking?
    case Retest => s.producer.Testing?
    case CopyByte => s.producer.Filling? || (s.producer.Copying? && s.producer.k < s.producer.insert)
    case Publish => s.producer.Copying? && s.producer.k >= s.producer.insert
    case QueryContiguous => s.consumer.Waiting?
    case ReadByte => s.consumer.Reading? && |s.consumer.seen| < s.consumer.len
    case CommitRetrieved(n) => s.consumer.Reading? && 0 <= n <= |s.consumer.seen|
    case CheckCommit => s.consumer.Committing?
    case Release => s.consumer.Leaving?
  }

  /** The assertions of Insert and CommitRetrieved that the step reaches, and the bounds of the copies. */
  predicate Asserts(s: State, a: Action) {
    match a
    case Retest =>
      s.producer.Testing? ==> AfterTest(s.into, s.out, s.length, s.producer.data, s.producer.insert).Copying? ==>
        var p := AfterTest(s.into, s.out, s.length, s.producer.data, s.producer.insert);
        p.tin < s.length && 0 <= p.insert && p.to + p.insert <= s.length
    case CopyByte =>
      && (s.producer.Filling? ==>
            && 0 <= s.into + s.producer.k < |s.buffer| && 0 <= s.producer.k < |s.producer.data|
            && (var p := s.producer.inserted - s.producer.here; 0 <= p < s.length))
      && (s.producer.Copying? && s.producer.k < s.producer.insert ==>
            && 0 <= s.producer.to + s.producer.k < |s.buffer|
            && 0 <= s.producer.from + s.producer.k < |s.producer.data|)
    case Publish => s.producer.Copying? ==> 0 <= s.producer.inserted <= |s.producer.data|
    case ReadByte => s.consumer.Reading? ==> 0 <= s.out + |s.consumer.seen| < |s.buffer|
    case CheckCommit =>
      s.consumer.Committing? ==>
        && (s.into < s.out || s.out + s.consumer.n <= s.into)
        && s.out + s.consumer.n <= s.length
    case Release => s.consumer.Leaving? ==> 0 <= s.consumer.n <= |s.consumer.seen|
    case _ => true
  }

  /** Insert from its second look at `out` to its next copy. */
  function AfterTest(into: int, out: int, length: int, data: seq<int>, insert: int): Producer {
    var here := length - into;
    if into >= out && here < insert then Filling(data, insert, here, 0)
    else if into >= out && here == insert then Copying(data, insert, 0, into, insert, 0, 0)  // tin is -insert + insert
    else Copying(data, insert, 0, into, insert, 0, into + insert)
  }

  /** After a byte of the first copy: the next one, or the second copy. */
  function AfterTop(p: Producer): Producer
    requires p.Filling?
  {
    if p.k + 1 < p.here then Filling(p.data, p.inserted, p.here, p.k + 1)
    else
      var rest := p.inserted - p.here;
      Copying(p.data, p.inserted, p.here, 0, rest, 0, 0 + rest)
  }

  function Do(s: State, a: Action): State
    requires Enabled(s, a) && Asserts(s, a)
  {
    match a
    case Insert(data) => s.(producer := Asking(data))
    case QueryInsertable =>
      var free := Insertable(s.into, s.out, s.length);
      var d := s.producer.data;
      s.(producer := Testing(d, if |d| < free then |d| else free))
    case Retest =>
      s.(producer := AfterTest(s.into, s.out, s.length, s.producer.data, s.producer.insert))
    case CopyByte =>
      var p := s.producer;
      if p.Filling? then
        s.(buffer := s.buffer[s.into + p.k := p.data[p.k]], producer := AfterTop(p))
      else
        s.(buffer := s.buffer[p.to + p.k := p.data[p.from + p.k]],
           producer := Copying(p.data, p.inserted, p.from, p.to, p.insert, p.k + 1, p.tin))
    case Publish =>
      var p := s.producer;
      s.(into := p.tin, producer := Resting, inserted := s.inserted + p.data[..p.inserted])
    case QueryContiguous =>
      s.(consumer := Reading(Contiguous(s.into, s.out, s.length), []))
    case ReadByte =>
      s.(consumer := Reading(s.consumer.len, s.consumer.seen + [s.buffer[s.out + |s.consumer.seen|]]))
    case CommitRetrieved(n) => s.(consumer := Committing(n, s.consumer.seen))
    case CheckCommit => s.(consumer := Leaving(s.consumer.n, s.consumer.seen))
    case Release =>
      var tout := s.out + s.consumer.n;
      s.(out := if tout == s.length then 0 else tout, consumer := Waiting,
         removed := s.removed + s.consumer.seen[..s.consumer.n])
  }

  // ------------------------------------------------------------ invariant

  ghost predicate Sound(s: State) {
    Shape(s.buffer, s.length, s.into, s.out)
  }

  ghost function Used(s: State): int {
    Retrievable(s.into, s.out, s.length)
  }

  /** What went in is what came out followed by what is there. */
  ghost predicate Fifo(s: State)
    requires Sound(s)
  {
    s.inserted == s.removed + Contents(s.buffer, s.length, s.into, s.out)
  }

  /** The first `n` bytes of the insertion are in place behind the contents. */
  ghost predicate Placed(s: State, data: seq<int>, n: int)
    requires Sound(s)
  {
    && 0 <= n <= |data| && n <= s.length
    && forall j :: 0 <= j < n ==> s.buffer[Wrap(s.into + j, s.length)] == data[j]
  }

  /** An insertion of `n` bytes of `data` fits, whatever the consumer does meanwhile. */
  ghost predicate Fits(s: State, data: seq<int>, n: int) {
    0 <= n <= |data| && Used(s) + n <= s.length - 1
  }

  ghost predicate ProducerRight(s: State)
    requires Sound(s)
  {
    match s.producer
    case Resting => true
    case Asking(_) => true
    case Testing(data, n) => Fits(s, data, n)
    case Filling(data, n, here, k) =>
      && Fits(s, data, n) && here == s.length - s.into && 0 <= k < here < n
      && Placed(s, data, k)
    case Copying(data, n, from, to, insert, k, tin) =>
      && Fits(s, data, n) && from + insert == n && 0 <= from && 0 <= k <= insert
      && to == Wrap(s.into + from, s.length) && to + insert <= s.length
      && tin == Wrap(s.into + n, s.length)
      && Placed(s, data, from + k)
  }

  /** What the consumer saw is still the front of the contents. */
  ghost predicate Seen(s: State, len: int, seen: seq<int>)
    requires Sound(s)
  {
    && |seen| <= len <= Used(s) && s.out + len <= s.length
    && seen == s.buffer[s.out..s.out + |seen|]
  }

  ghost predicate ConsumerRight(s: State)
    requires Sound(s)
  {
    match s.consumer
    case Waiting => true
    case Reading(len, seen) => Seen(s, len, seen)
    case Committing(n, seen) => 0 <= n <= |seen| && Seen(s, |seen|, seen)
    case Leaving(n, seen) => 0 <= n <= |seen| && Seen(s, |seen|, seen)
  }

  ghost predicate Inv(s: State) {
    Sound(s) && Fifo(s) && ProducerRight(s) && ConsumerRight(s)
  }

  // ------------------------------------------------------------ steps

  /** A byte stored beyond the contents does not disturb them. */
  lemma {:induction false} StoreBeyond(s: State, j: int, b: int)
    requires Sound(s) && 0 <= j && Used(s) + j < s.length
    ensures var at := Wrap(s.into + j, s.length);
      && 0 <= at < s.length
      && Contents(s.buffer[at := b], s.length, s.into, s.out) == Contents(s.buffer, s.length, s.into, s.out)
  {
    var at := Wrap(s.into + j, s.length);
    var c, d := Contents(s.buffer, s.length, s.into, s.out), Contents(s.buffer[at := b], s.length, s.into, s.out);
    forall i | 0 <= i < Used(s) ensures c[i] == d[i] {
      assert Wrap(s.out + i, s.length) != at;
    }
  }

  /** The consumer's view survives such a store. */
  lemma SeenKept(s: State, s': State, j: int, b: int, len: int, seen: seq<int>)
    requires Sound(s) && 0 <= j && Used(s) + j < s.length && Seen(s, len, seen)
    requires s' == s.(buffer := s.buffer[Wrap(s.into + j, s.length) := b], producer := s'.producer)
    ensures Seen(s', len, seen)
  {
    var at := Wrap(s.into + j, s.length);
    var old', new' := s.buffer[s.out..s.out + |seen|], s'.buffer[s.out..s.out + |seen|];
    forall i | 0 <= i < |seen| ensures old'[i] == new'[i] {
      assert s.out + i != at;
    }
  }

  lemma StoreKeeps(s: State, s': State, data: seq<int>, j: int)
    requires Inv(s) && Placed(s, data, j) && j < |data| && Used(s) + j < s.length
    requires s' == s.(buffer := s.buffer[Wrap(s.into + j, s.length) := data[j]], producer := s'.producer)
    ensures Sound(s') && Fifo(s') && ConsumerRight(s') && Placed(s', data, j + 1)
  {
    hide Contents, Seen;
    StoreBeyond(s, j, data[j]);
    match s.consumer
    case Waiting =>
    case Reading(len, seen) => SeenKept(s, s', j, data[j], len, seen);
    case Committing(n, seen) => SeenKept(s, s', j, data[j], |seen|, seen);
    case Leaving(n, seen) => SeenKept(s, s', j, data[j], |seen|, seen);
    PlacedOne(s, s', data, j);
  }

  lemma PlacedOne(s: State, s': State, data: seq<int>, j: int)
    requires Sound(s) && Placed(s, data, j) && j < |data| && j < s.length
    requires s' == s.(buffer := s.buffer[Wrap(s.into + j, s.length) := data[j]], producer := s'.producer)
    ensures Placed(s', data, j + 1)
  {
    forall i | 0 <= i < j + 1 ensures s'.buffer[Wrap(s.into + i, s.length)] == data[i] {
      assert i < j ==> Wrap(s.into + i, s.length) != Wrap(s.into + j, s.length);
    }
  }

  /** The second look at `out` may find it moved, past the end of the buffer even; the copy chosen is right all the
      same. */
  lemma RetestKeeps(s: State)
    requires Inv(s) && s.producer.Testing?
    ensures Asserts(s, Retest) && Inv(Do(s, Retest))
  {
    hide Contents, Fifo;
    hide ConsumerRight;
    var s' := Do(s, Retest);
    assert Sound(s') && ProducerRight(s');
    RetestOthers(s, s');
  }

  /** Steps of the producer's own bookkeeping. */
  lemma RetestOthers(s: State, s': State)
    requires Inv(s) && s' == s.(producer := s'.producer)
    ensures Sound(s') && Fifo(s') && ConsumerRight(s')
  {
  }

  lemma CopyByteKeeps(s: State)
    requires Inv(s) && Enabled(s, CopyByte)
    ensures Asserts(s, CopyByte) && Inv(Do(s, CopyByte))
  {
    hide Contents, Fifo, ConsumerRight;
    var p := s.producer;
    var s' := Do(s, CopyByte);
    if p.Filling? {
      StoreKeeps(s, s', p.data, p.k);
    } else {
      StoreKeeps(s, s', p.data, p.from + p.k);
    }
  }

  lemma PublishKeeps(s: State)
    requires Inv(s) && Enabled(s, Publish)
    ensures Asserts(s, Publish) && Inv(Do(s, Publish))
  {
    var p, s' := s.producer, Do(s, Publish);
    var more := p.data[..p.inserted];
    assert Used(s') == Used(s) + |more|;
    CircularExtend(s.buffer, s.out, Used(s), more);
  }

  lemma ReadByteKeeps(s: State)
    requires Inv(s) && Enabled(s, ReadByte)
    ensures Asserts(s, ReadByte) && Inv(Do(s, ReadByte))
  {
    hide Circular, ProducerRight;
    RoomKept(s, Do(s, ReadByte));
  }

  lemma FrontSeen(s: State, seen: seq<int>, n: int)
    requires Sound(s) && Seen(s, |seen|, seen) && 0 <= n <= |seen|
    ensures Circular(s.buffer, s.out, Used(s))[..n] == seen[..n]
  {
    var front, gone := Circular(s.buffer, s.out, Used(s))[..n], seen[..n];
    forall i | 0 <= i < n ensures front[i] == gone[i] {
      assert s.buffer[Wrap(s.out + i, s.length)] == s.buffer[s.out..s.out + |seen|][i];
    }
  }

  /** More room is as good for the producer. */
  lemma RoomKept(s: State, s': State)
    requires Sound(s) && Sound(s') && ProducerRight(s) && Used(s') <= Used(s)
    requires s' == s.(out := s'.out, consumer := s'.consumer, removed := s'.removed)
    ensures ProducerRight(s')
  {
  }

  lemma ReleaseKeeps(s: State)
    requires Inv(s) && Enabled(s, Release)
    ensures Asserts(s, Release) && Inv(Do(s, Release))
  {
    hide ProducerRight, Circular;
    var c, s' := s.consumer, Do(s, Release);
    var was := Circular(s.buffer, s.out, Used(s));
    FrontSeen(s, c.seen, c.n);
    CircularDrop(s.buffer, s.out, Used(s), c.n);
    assert Used(s') == Used(s) - c.n;
    assert was == was[..c.n] + was[c.n..];
    RoomKept(s, s');
  }

  /** Steps that only move the consumer on. */
  lemma ConsumerMoves(s: State, a: Action)
    requires Inv(s) && Enabled(s, a) && (a.QueryContiguous? || a.CommitRetrieved? || a.CheckCommit?)
    ensures Asserts(s, a) && Inv(Do(s, a))
  {
    hide Circular;
    var s' := Do(s, a);
    RoomKept(s, s');
  }

  /** Steps that only start an insertion. */
  lemma InsertMoves(s: State, a: Action)
    requires Inv(s) && Enabled(s, a) && (a.Insert? || a.QueryInsertable?)
    ensures Asserts(s, a) && Inv(Do(s, a))
  {
    hide Contents, ConsumerRight;
    RetestOthers(s, Do(s, a));
  }

  /** No step breaks the invariant, and no assertion fires. */
  lemma StepKeepsInv(s: State, a: Action)
    requires Inv(s) && Enabled(s, a)
    ensures Asserts(s, a) && Inv(Do(s, a))
  {
    hide Inv;
    match a
    case Insert(_) => InsertMoves(s, a);
    case QueryInsertable => InsertMoves(s, a);
    case Retest => RetestKeeps(s);
    case CopyByte => CopyByteKeeps(s);
    case Publish => PublishKeeps(s);
    case ReadByte => ReadByteKeeps(s);
    case Release => ReleaseKeeps(s);
    case _ => ConsumerMoves(s, a);
  }

  // ------------------------------------------------------------ runs

  ghost predicate Run(states: seq<State>, actions: seq<Action>) {
    && |states| == |actions| + 1 && Fresh(states[0])
    && forall i :: 0 <= i < |actions| ==>
         && Enabled(states[i], actions[i])
         && (Asserts(states[i], actions[i]) ==> states[i + 1] == Do(states[i], actions[i]))
  }

  /** In every interleaving the assertions hold, never more than `length - 1` bytes are held, and the
      bytes the consumer saw and committed are, in order, those the producer inserted. */
  lemma {:induction false} EveryRun(states: seq<State>, actions: seq<Action>)
    requires Run(states, actions)
    ensures forall i :: 0 <= i < |actions| ==> Asserts(states[i], actions[i])
    ensures var s := states[|actions|];
      && Inv(s)
      && |s.removed| <= |s.inserted| <= |s.removed| + s.length - 1
      && s.removed == s.inserted[..|s.removed|]
  {
    var n := |actions|;
    if n > 0 {
      var before, b := states[..n], actions[..n - 1];
      EveryRun(before, b);
      forall i | 0 <= i < n ensures Asserts(states[i], actions[i]) {
        if i < n - 1 {
          assert Asserts(before[i], b[i]);
        } else {
          StepKeepsInv(states[i], actions[i]);
        }
      }
      StepKeepsInv(states[n - 1], actions[n - 1]);
    }
  }

  /** Insertable and retrievable always add up to the capacity. */
  lemma CapacitySplits(s: State)
    requires Sound(s)
    ensures Insertable(s.into, s.out, s.length) + |Contents(s.buffer, s.length, s.into, s.out)| == s.length - 1
    ensures Contiguous(s.into, s.out, s.length) <= |Contents(s.buffer, s.length, s.into, s.out)|
    ensures Contiguous(s.into, s.out, s.length) == 0 <==> Contents(s.buffer, s.length, s.into, s.out) == []
  {
  }

  // ------------------------------------------------------------ how much is inserted and offered

  /** The data of an insertion under way. */
  function DataOf(p: Producer): seq<int> {
    if p.Resting? then [] else p.data
  }

  /** How much of it is inserted, once that is decided. */
  function AmountOf(p: Producer): int {
    match p
    case Testing(_, insert) => insert
    case Filling(_, inserted, _, _) => inserted
    case Copying(_, inserted, _, _, _, _, _) => inserted
    case _ => 0
  }

  predicate Decided(p: Producer) {
    p.Testing? || p.Filling? || p.Copying?
  }

  ghost function Held(s: State): seq<int>
    requires Sound(s)
  {
    Contents(s.buffer, s.length, s.into, s.out)
  }

  lemma {:induction false} RunStep(states: seq<State>, actions: seq<Action>, i: nat)
    requires Run(states, actions) && i < |states|
    ensures Inv(states[i])
    ensures i < |actions| ==>
      && Enabled(states[i], actions[i]) && Asserts(states[i], actions[i])
      && states[i + 1] == Do(states[i], actions[i])
  {
    EveryRun(states[..i + 1], actions[..i]);
    hide Inv, Do, Asserts;
    if i < |actions| {
      StepKeepsInv(states[i], actions[i]);
    }
  }

  /** The call of Insert that an insertion under way belongs to. */
  lemma {:induction false} Called(states: seq<State>, actions: seq<Action>, i: nat) returns (j: nat)
    requires Run(states, actions) && i < |states| && !states[i].producer.Resting?
    ensures j < i && actions[j] == Insert(DataOf(states[i].producer))
    ensures forall l :: j < l <= i ==> !states[l].producer.Resting?
    decreases i
  {
    if i == 0 {
      assert false;
    }
    RunStep(states, actions, i - 1);
    hide Inv, Run, Asserts;
    if actions[i - 1].Insert? {
      j := i - 1;
    } else {
      j := Called(states, actions, i - 1);
    }
  }

  lemma DecisionStep(s: State, a: Action)
    requires Inv(s) && Enabled(s, a) && Asserts(s, a) && Decided(Do(s, a).producer)
    ensures var p := Do(s, a).producer;
      if a.QueryInsertable? then
        s.producer == Asking(DataOf(p)) && AmountOf(p) == Min(|DataOf(p)|, s.length - 1 - |Held(s)|)
      else Decided(s.producer) && DataOf(p) == DataOf(s.producer) && AmountOf(p) == AmountOf(s.producer)
  {
    hide Fifo, ProducerRight, ConsumerRight, Contents;
    if a.QueryInsertable? {
      CapacitySplits(s);
    }
  }

  /** Where the amount was decided: it is the smaller of the data and the space seen there. */
  lemma {:induction false} Decision(states: seq<State>, actions: seq<Action>, i: nat) returns (q: nat)
    requires Run(states, actions) && i < |states| && Decided(states[i].producer)
    ensures q < i && actions[q] == QueryInsertable && states[q].producer == Asking(DataOf(states[i].producer))
    ensures Sound(states[q])
    ensures AmountOf(states[i].producer) == Min(|DataOf(states[i].producer)|, states[q].length - 1 - |Held(states[q])|)
    ensures forall l :: q < l <= i ==> Decided(states[l].producer)
    decreases i
  {
    if i == 0 {
      assert false;
    }
    RunStep(states, actions, i - 1);
    DecisionStep(states[i - 1], actions[i - 1]);
    hide Run, Asserts, Fifo, ProducerRight, ConsumerRight, Held, Do, Enabled;
    if actions[i - 1].QueryInsertable? {
      q := i - 1;
    } else {
      q := Decision(states, actions, i - 1);
    }
  }

  /** In every run, what a call of Insert publishes is the smaller of its data and the space there was when it looked:
      no more, and no less either. */
  lemma {:induction false} InsertionSize(states: seq<State>, actions: seq<Action>, k: nat) returns (j: nat, q: nat)
    requires Run(states, actions) && k < |actions| && actions[k].Publish?
    ensures j < q < k && actions[j].Insert? && actions[q] == QueryInsertable
    ensures forall l :: j < l <= k ==> !states[l].producer.Resting?
    ensures Sound(states[q])
    ensures var n := Min(|actions[j].data|, states[q].length - 1 - |Held(states[q])|);
      0 <= n && states[k + 1].inserted == states[k].inserted + actions[j].data[..n]
  {
    RunStep(states, actions, k);
    q := Decision(states, actions, k);
    j := Called(states, actions, q);
    RunStep(states, actions, q);
    hide Run, Contents, Fifo, ConsumerRight;
    assert Used(states[q]) <= states[q].length - 1;
  }

  /** In every run, what the consumer is offered is what lay in one piece when it looked, and that is nothing only if
      the buffer was empty. */
  lemma {:induction false} OfferSize(states: seq<State>, actions: seq<Action>, i: nat) returns (q: nat)
    requires Run(states, actions) && i < |states| && states[i].consumer.Reading?
    ensures q < i && actions[q] == QueryContiguous && Sound(states[q])
    ensures forall l :: q < l <= i ==> states[l].consumer.Reading?
    ensures states[i].consumer.len == Min(|Held(states[q])|, states[q].length - states[q].out)
    ensures states[i].consumer.len == 0 <==> Held(states[q]) == []
    decreases i
  {
    if i == 0 {
      assert false;
    }
    RunStep(states, actions, i - 1);
    hide Run, Asserts, Fifo, ProducerRight, ConsumerRight;
    if actions[i - 1].QueryContiguous? {
      q := i - 1;
      CapacitySplits(states[q]);
    } else {
      q := OfferSize(states, actions, i - 1);
    }
  }

  // ------------------------------------------------------------ the object

  /** The insertion is in place and the rest of the buffer as it was. */
  ghost predicate Copied(s: State, buffer: seq<int>, data: seq<int>, n: int)
    requires Sound(s) && 0 <= n <= |data| && n <= s.length
  {
    && |buffer| == s.length
    && (forall j :: 0 <= j < n ==> buffer[Wrap(s.into + j, s.length)] == data[j])
    && (forall x :: 0 <= x < s.length && !(s.into <= x < s.into + n) && x >= s.into + n - s.length ==>
          buffer[x] == s.buffer[x])
  }

  lemma OneCopy(s: State, buffer: seq<int>, data: seq<int>, n: int)
    requires Sound(s) && 0 <= n <= |data| && s.into + n <= s.length
    requires buffer == s.buffer[..s.into] + data[..n] + s.buffer[s.into + n..]
    ensures Copied(s, buffer, data, n)
  {
  }

  lemma {:induction false} TwoCopies(s: State, mid: seq<int>, buffer: seq<int>, data: seq<int>, n: int)
    requires Sound(s) && 0 <= n <= |data| && n <= s.length < s.into + n
    requires var here := s.length - s.into;
      && mid == s.buffer[..s.into] + data[..here] + s.buffer[s.into + here..]
      && buffer == mid[..0] + data[here..n] + mid[n - here..]
    ensures Copied(s, buffer, data, n)
  {
  }

  /** A completed copy extends the contents. */
  lemma {:induction false} InsertedBehind(s: State, buffer: seq<int>, data: seq<int>, n: int)
    requires Sound(s) && Fits(s, data, n) && Copied(s, buffer, data, n)
    ensures var into := Wrap(s.into + n, s.length);
      && Shape(buffer, s.length, into, s.out)
      && Contents(buffer, s.length, into, s.out) == Contents(s.buffer, s.length, s.into, s.out) + data[..n]
  {
    var was, now := Circular(s.buffer, s.out, Used(s)), Circular(buffer, s.out, Used(s));
    forall i | 0 <= i < Used(s) ensures was[i] == now[i] {
      var x := Wrap(s.out + i, s.length);
      assert !(s.into <= x < s.into + n) && x >= s.into + n - s.length;
    }
    CircularExtend(buffer, s.out, Used(s), data[..n]);
  }

  /** One side at a time: what the calls do when nothing runs between their steps. */
  class Buffer {
    const buffer: array<int>
    const length: int
    var into: int
    var out: int

    ghost predicate Valid()
      reads this, buffer
    {
      Shape(buffer[..], length, into, out)
    }

    ghost function Held(): seq<int>
      requires Valid()
      reads this, buffer
    {
      Contents(buffer[..], length, into, out)
    }

    constructor (size: int)
      requires size > 0
      ensures Valid() && Held() == [] && length == size && fresh(buffer)
    {
      buffer := new int[size](_ => 0);
      length := size;
      into, out := 0, 0;
    }

    /** Circle::Insert */
    method Insert(data: array<int>, len: nat) returns (inserted: int)
      requires Valid() && data != buffer && len <= data.Length
      modifies `into, buffer
      ensures Valid() && inserted == Min(len, length - 1 - |old(Held())|)
      ensures Held() == old(Held()) + data[..inserted]
    {
      ghost var s := State(buffer[..], length, into, out, Resting, Waiting, [], []);
      hide Contents, Copied;
      var insert := Insertable(into, out, length);
      CapacitySplits(s);
      if len < insert {
        insert := len;
      }
      inserted := insert;
      var tin := CopyIn(data, insert);
      InsertedBehind(s, buffer[..], data[..], inserted);
      assert data[..][..inserted] == data[..inserted];
      into := tin;
    }

    /** The copies of Insert; the result is the new value of `in`. */
    method CopyIn(data: array<int>, n: int) returns (tin: int)
      requires Valid() && data != buffer && 0 <= n <= data.Length && n <= Insertable(into, out, length)
      modifies buffer
      ensures Copied(State(old(buffer[..]), length, into, out, Resting, Waiting, [], []), buffer[..], data[..], n)
      ensures tin == Wrap(into + n, length)
    {
      hide Copied;
      ghost var s := State(buffer[..], length, into, out, Resting, Waiting, [], []);
      tin := into;
      var to, from, insert := into, 0, n;
      if into >= out {
        var here := length - tin;
        if here < insert {
          Memcpy(buffer, to, data, 0, here);
          assert data[..][..here] == data[0..0 + here];
          insert, from := insert - here, here;
          tin, to := 0, 0;
        } else if here == insert {
          tin := -insert;
        }
      }
      tin := tin + insert;
      assert tin < length;
      ghost var mid := buffer[..];
      Memcpy(buffer, to, data, from, insert);
      if from == 0 {
        assert data[..][..n] == data[0..0 + n];
        OneCopy(s, buffer[..], data[..], n);
      } else {
        assert data[..][from..n] == data[from..from + insert];
        TwoCopies(s, mid, buffer[..], data[..], n);
      }
    }

    /** Circle::QueryContiguousRetrievable: the position and the number of bytes that can be used there. */
    method QueryContiguousRetrievable() returns (at: int, len: int)
      requires Valid()
      ensures 0 <= at && at + len <= length && len == Min(|Held()|, length - out)
      ensures buffer[at..at + len] == Held()[..len]
      ensures len == 0 <==> Held() == []
    {
      at := out;
      len := if at <= into then into - at else length - at;
      ghost var a, b := buffer[at..at + len], Held()[..len];
      forall i | 0 <= i < len ensures a[i] == b[i] {
        assert b[i] == buffer[..][Wrap(out + i, length)];
      }
    }

    /** Circle::CommitRetrieved */
    method CommitRetrieved(len: int)
      requires Valid() && 0 <= len <= Contiguous(into, out, length)
      modifies `out
      ensures Valid() && len <= |old(Held())| && Held() == old(Held())[len..]
    {
      assert into < out || out + len <= into;
      CircularDrop(buffer[..], out, Retrievable(into, out, length), len);
      var tout := out + len;
      assert tout <= length;
      if tout == length {
        tout := 0;
      }
      out := tout;
    }
  }
}
