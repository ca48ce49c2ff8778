/** The multiple-reader, single-writer spin lock of inc/scsiboot.h.

    Any number of threads run the acquire and release functions on one 32-bit
    word; a step is one load or one interlocked operation of one thread.
  */
module MrswLock {
  import Bits
  import opened RingIndex

  const WRITER_HELD: nat := 0x8000_0000

  datatype Thread =
    | Idle
    | Loading(trying: bool)            // acquire_mrsw_read or try_acquire_mrsw_read: about to load the word
    | Swapping(trying: bool, seen: nat)  // about to compare-and-exchange
    | Reading                          // holds the lock for reading; release begins with the first assertion
    | Leaving                          // about to evaluate the second assertion
    | Decrementing
    | Spinning                         // acquire_mrsw_write before raising the interrupt level
    | Retesting
    | Claiming                         // about to compare-and-exchange with zero
    | Writing                          // holds the lock for writing

  datatype State = State(word: nat, threads: seq<Thread>)

  /** `word & XM_MRSW_WRITER_HELD` is not zero. */
  predicate Flagged(word: nat) {
    Bits.And(word, WRITER_HELD) != 0
  }

  lemma FlagIsHighBit(word: nat)
    requires word < WRAP
    ensures Flagged(word) <==> word >= WRITER_HELD
  {
    var f := Bits.And(word, WRITER_HELD);
    assert f == ((word / WRITER_HELD) % 2) * WRITER_HELD by {
      Pow2Table();
      assert Bits.Pow2(32) == 2 * Bits.Pow2(31) && Bits.Pow2(1) == 2;
      Bits.AndField(word, 1, 31);
    }
  }

  predicate Reads(t: Thread) {
    t.Reading? || t.Leaving? || t.Decrementing?
  }

  predicate Writes(t: Thread) {
    t.Writing?
  }

  function Count(threads: seq<Thread>, p: Thread -> bool): (n: nat)
    ensures n <= |threads|
  {
    if threads == [] then 0
    else (if p(threads[0]) then 1 else 0) + Count(threads[1..], p)
  }

  function Readers(s: State): nat {
    Count(s.threads, Reads)
  }

  function Writers(s: State): nat {
    Count(s.threads, Writes)
  }

  lemma {:induction false} CountUpdate(threads: seq<Thread>, i: nat, t: Thread, p: Thread -> bool)
    requires i < |threads|
    ensures Count(threads[i := t], p) + (if p(threads[i]) then 1 else 0) == Count(threads, p) + (if p(t) then 1 else 0)
  {
    var u := threads[i := t];
    if i == 0 {
      assert u[1..] == threads[1..];
    } else {
      CountUpdate(threads[1..], i - 1, t, p);
      assert u[1..] == threads[1..][i - 1 := t];
    }
  }

  datatype Action = AcquireRead(i: nat) | TryAcquireRead(i: nat) | AcquireWrite(i: nat) | Advance(i: nat)

  predicate Enabled(s: State, a: Action) {
    a.i < |s.threads| && (a.Advance? <==> !s.threads[a.i].Idle?)
  }

  /** The assertions of release_mrsw_read and release_mrsw_write. */
  predicate Asserts(s: State, a: Action)
    requires Enabled(s, a)
  {
    match s.threads[a.i]
    case Reading => s.word != 0
    case Leaving => !Flagged(s.word)
    case Writing => s.word == WRITER_HELD
    case _ => true
  }

  /** The thread and the word after one step of thread `t`. */
  function Next(t: Thread, word: nat): (Thread, nat) {
    match t
    case Idle => (Idle, word)
    case Loading(trying) =>
      (if !Flagged(word) then Swapping(trying, word) else if trying then Idle else Loading(false), word)
    case Swapping(trying, seen) =>
      if word == seen then (Reading, (seen + 1) % WRAP) else (Loading(trying), word)
    case Reading => (Leaving, word)
    case Leaving => (Decrementing, word)
    case Decrementing => (Idle, (word + WRAP - 1) % WRAP)
    case Spinning => (if word != 0 then Spinning else Retesting, word)
    case Retesting => (if word != 0 then Retesting else Claiming, word)
    case Claiming => if word == 0 then (Writing, WRITER_HELD) else (Retesting, word)
    case Writing => (Idle, if word == WRITER_HELD then 0 else word)
  }

  function Do(s: State, a: Action): State
    requires Enabled(s, a)
  {
    match a
    case AcquireRead(i) => s.(threads := s.threads[i := Loading(false)])
    case TryAcquireRead(i) => s.(threads := s.threads[i := Loading(true)])
    case AcquireWrite(i) => s.(threads := s.threads[i := Spinning])
    case Advance(i) =>
      var (t, w) := Next(s.threads[i], s.word);
      State(w, s.threads[i := t])
  }

  /** The word is the number of readers, or the flag with a single writer. */
  ghost predicate Exact(s: State) {
    || (s.word == Readers(s) < WRITER_HELD && Writers(s) == 0)
    || (s.word == WRITER_HELD && Readers(s) == 0 && Writers(s) == 1)
  }

  /** What a thread remembers of the word had no flag. */
  ghost predicate Remembers(t: Thread) {
    t.Swapping? ==> t.seen < WRITER_HELD
  }

  ghost predicate Inv(s: State) {
    && Exact(s)
    && forall i :: 0 <= i < |s.threads| ==> Remembers(s.threads[i])
  }

  lemma {:induction false} SomeoneCounts(threads: seq<Thread>, i: nat, p: Thread -> bool)
    requires i < |threads| && p(threads[i])
    ensures Count(threads, p) >= 1
  {
    if i > 0 {
      SomeoneCounts(threads[1..], i - 1, p);
    }
  }

  /** While fewer than 2^31 threads hold the lock for reading, every step keeps the word exact and no
      assertion of a release fires. */
  lemma StepKeepsInv(s: State, a: Action)
    requires Inv(s) && Enabled(s, a) && Readers(Do(s, a)) < WRITER_HELD
    ensures Asserts(s, a) && Inv(Do(s, a))
  {
    hide Count, Flagged;
    var s', t := Do(s, a), s.threads[a.i];
    CountUpdate(s.threads, a.i, s'.threads[a.i], Reads);
    CountUpdate(s.threads, a.i, s'.threads[a.i], Writes);
    FlagIsHighBit(s.word);
    if Reads(t) {
      SomeoneCounts(s.threads, a.i, Reads);
    }
    if Writes(t) {
      SomeoneCounts(s.threads, a.i, Writes);
    }
    assert s'.threads == s.threads[a.i := s'.threads[a.i]];
    assert Remembers(t);
  }

  /** The bound is sharp: the reader that makes it 2^31 turns the word into the writer flag, and the next
      reader to release finds its second assertion false; TooManyReaders is such a run. */
  lemma {:induction false} ReaderTooMany(s: State, i: nat, j: nat)
    requires Inv(s) && i < |s.threads| && j < |s.threads| && i != j
    requires Readers(s) == WRITER_HELD - 1 && s.threads[i] == Swapping(false, s.word) && s.threads[j].Leaving?
    ensures var s' := Do(s, Advance(i)); Readers(s') == WRITER_HELD && !Asserts(s', Advance(j))
  {
    var s' := Do(s, Advance(i));
    CountUpdate(s.threads, i, Reading, Reads);
    FlagIsHighBit(s'.word);
  }

  // ------------------------------------------------------------ runs

  ghost predicate Run(states: seq<State>, actions: seq<Action>) {
    && |states| == |actions| + 1
    && states[0].word == 0 && (forall i :: 0 <= i < |states[0].threads| ==> states[0].threads[i].Idle?)
    && forall k :: 0 <= k < |actions| ==> Enabled(states[k], actions[k]) && states[k + 1] == Do(states[k], actions[k])
  }

  lemma {:induction false} NobodyHolds(threads: seq<Thread>)
    requires forall i :: 0 <= i < |threads| ==> threads[i].Idle?
    ensures Count(threads, Reads) == 0 && Count(threads, Writes) == 0
  {
    if threads != [] {
      NobodyHolds(threads[1..]);
    }
  }

  /** In every run in which the readers stay below 2^31. */
  lemma {:induction false} EveryRun(states: seq<State>, actions: seq<Action>)
    requires Run(states, actions)
    requires forall k :: 0 <= k < |states| ==> Readers(states[k]) < WRITER_HELD
    ensures forall k :: 0 <= k < |actions| ==> Enabled(states[k], actions[k]) && Asserts(states[k], actions[k])
    ensures Inv(states[|actions|])
  {
    var n := |actions|;
    if n == 0 {
      NobodyHolds(states[0].threads);
    } else {
      var before, b := states[..n], actions[..n - 1];
      EveryRun(before, b);
      assert states[n] == Do(states[n - 1], actions[n - 1]) && Readers(states[n]) < WRITER_HELD;
      StepKeepsInv(states[n - 1], actions[n - 1]);
      forall k | 0 <= k < n ensures Enabled(states[k], actions[k]) && Asserts(states[k], actions[k]) {
        if k < n - 1 {
          assert Asserts(before[k], b[k]);
        }
      }
    }
  }

  /** A writer is alone. */
  lemma MutualExclusion(s: State, i: nat, j: nat)
    requires Inv(s) && i < |s.threads| && j < |s.threads| && i != j && Writes(s.threads[i])
    ensures !Reads(s.threads[j]) && !Writes(s.threads[j])
  {
    SomeoneCounts(s.threads, i, Writes);
    if Reads(s.threads[j]) {
      SomeoneCounts(s.threads, j, Reads);
    }
    CountUpdate(s.threads, i, Idle, Writes);
    if Writes(s.threads[j]) {
      SomeoneCounts(s.threads[i := Idle], j, Writes);
    }
  }

  // ------------------------------------------------------------ how an acquisition ends

  /** A thread that is inside the acquire function called by `call` and does not hold the lock. */
  predicate Seeking(call: Action, t: Thread) {
    match call
    case AcquireRead(_) => t == Loading(false) || (t.Swapping? && !t.trying && !Flagged(t.seen))
    case TryAcquireRead(_) => t == Loading(true) || (t.Swapping? && t.trying && !Flagged(t.seen))
    case AcquireWrite(_) => t.Spinning? || t.Retesting? || t.Claiming?
    case Advance(_) => false
  }

  /** From `s` to `s'` the caller gets the lock: for reading when the word has no flag, which makes it one more; for
      writing when the word is zero, which makes it the flag. */
  predicate Takes(call: Action, s: State, s': State)
    requires call.i < |s'.threads|
  {
    if call.AcquireWrite? then s.word == 0 && s'.word == WRITER_HELD && s'.threads[call.i].Writing?
    else !Flagged(s.word) && s'.word == (s.word + 1) % WRAP && s'.threads[call.i].Reading?
  }

  /** A try returns without the lock, because a writer has it. */
  predicate GivesUp(call: Action, s: State, s': State)
    requires call.i < |s'.threads|
  {
    call.TryAcquireRead? && Flagged(s.word) && s'.word == s.word && s'.threads[call.i].Idle?
  }

  /** One step of any thread while the caller seeks the lock. */
  lemma SeekingStep(s: State, a: Action, call: Action)
    requires Enabled(s, a) && call.i < |s.threads| && Seeking(call, s.threads[call.i])
    ensures var s' := Do(s, a);
      && |s'.threads| == |s.threads|
      && (Seeking(call, s'.threads[call.i]) || (a == Advance(call.i) && (Takes(call, s, s') || GivesUp(call, s, s'))))
  {
  }

  /** The caller of step `j` seeks the lock in every state from then on up to state `k`. */
  ghost predicate SeeksUntil(states: seq<State>, actions: seq<Action>, j: nat, k: nat)
    requires j < k < |states| && j < |actions|
  {
    forall l :: j < l <= k ==>
      actions[j].i < |states[l].threads| && Seeking(actions[j], states[l].threads[actions[j].i])
  }

  /** The caller seeks the lock from its call at step `j` up to step `m`, which ends the call. */
  ghost predicate EndsAt(states: seq<State>, actions: seq<Action>, j: nat, m: nat)
    requires Run(states, actions)
  {
    && j < m < |actions| && actions[m] == Advance(actions[j].i)
    && SeeksUntil(states, actions, j, m)
    && actions[j].i < |states[m + 1].threads|
    && (Takes(actions[j], states[m], states[m + 1]) || GivesUp(actions[j], states[m], states[m + 1]))
  }

  /** In every run, a call of an acquire function lasts until its caller has got the lock, at a step at which the lock
      was to be had; only a try may end otherwise, at a step at which the word has the writer flag. */
  lemma {:induction false} AcquisitionEnds(states: seq<State>, actions: seq<Action>, j: nat, k: nat)
    requires Run(states, actions) && j < k < |states| && !actions[j].Advance?
    ensures SeeksUntil(states, actions, j, k) || exists m: nat :: m < k && EndsAt(states, actions, j, m)
    decreases k
  {
    assert Enabled(states[k - 1], actions[k - 1]) && states[k] == Do(states[k - 1], actions[k - 1]);
    if j < k - 1 {
      AcquisitionEnds(states, actions, j, k - 1);
      if SeeksUntil(states, actions, j, k - 1) {
        SeekingStep(states[k - 1], actions[k - 1], actions[j]);
        if !Seeking(actions[j], states[k].threads[actions[j].i]) {
          assert EndsAt(states, actions, j, k - 1);
        }
      }
    }
  }

  /** So the caller of acquire_mrsw_read or acquire_mrsw_write is not done before it has had the lock. */
  lemma AcquiredBeforeIdle(states: seq<State>, actions: seq<Action>, j: nat, k: nat)
    requires Run(states, actions) && j < k < |states| && (actions[j].AcquireRead? || actions[j].AcquireWrite?)
    requires actions[j].i < |states[k].threads| && states[k].threads[actions[j].i].Idle?
    ensures exists m :: j < m < k && actions[j].i < |states[m].threads| && Holds(actions[j], states[m])
  {
    AcquisitionEnds(states, actions, j, k);
    var m: nat :| m < k && EndsAt(states, actions, j, m);
    assert m + 1 < k && Holds(actions[j], states[m + 1]);
  }

  /** The caller has the lock it asked for. */
  predicate Holds(call: Action, s: State)
    requires call.i < |s.threads|
  {
    if call.AcquireWrite? then s.threads[call.i].Writing? else s.threads[call.i].Reading?
  }

  /** The thread runs alone for `n` steps. */
  function Solo(s: State, i: nat, n: nat): State
    requires i < |s.threads|
    decreases n
  {
    if n == 0 || s.threads[i].Idle? then s else Solo(Do(s, Advance(i)), i, n - 1)
  }

  /** How many steps a thread needs that runs alone and finds the lock available. */
  function StepsLeft(t: Thread, word: nat): nat {
    match t
    case Loading(_) => 2
    case Swapping(_, seen) => if seen == word then 1 else 3
    case Spinning => 3
    case Retesting => 2
    case _ => 1
  }

  /** A reader that runs alone takes a lock without the flag, and a writer one that is zero, wherever they are in their
      call, in at most three steps. */
  lemma {:induction false} AloneTakes(s: State, call: Action)
    requires call.i < |s.threads| && Seeking(call, s.threads[call.i])
    requires if call.AcquireWrite? then s.word == 0 else !Flagged(s.word)
    ensures StepsLeft(s.threads[call.i], s.word) <= 3
    ensures Solo(s, call.i, StepsLeft(s.threads[call.i], s.word)) ==
      State(if call.AcquireWrite? then WRITER_HELD else (s.word + 1) % WRAP,
            s.threads[call.i := if call.AcquireWrite? then Writing else Reading])
    decreases StepsLeft(s.threads[call.i], s.word)
  {
    var i, t := call.i, s.threads[call.i];
    if StepsLeft(t, s.word) == 1 {
      assert Solo(s, i, 1) == Do(s, Advance(i));
    } else {
      var s' := Do(s, Advance(i));
      var t' := s'.threads[i];
      assert s'.word == s.word && Seeking(call, t') && StepsLeft(t', s.word) == StepsLeft(t, s.word) - 1;
      AloneTakes(s', call);
      var end := if call.AcquireWrite? then Writing else Reading;
      assert s.threads[i := t'][i := end] == s.threads[i := end];
    }
  }

  /** While a writer holds the lock acquire_mrsw_read waits and a try gives up at its next load; while anyone holds it
      acquire_mrsw_write waits. */
  lemma WaitsWhileHeld(s: State, i: nat)
    requires i < |s.threads|
    ensures s.threads[i] == Loading(false) && Flagged(s.word) ==> Do(s, Advance(i)) == s
    ensures s.threads[i] == Loading(true) && Flagged(s.word) ==>
      Do(s, Advance(i)) == s.(threads := s.threads[i := Idle])
    ensures (s.threads[i].Spinning? || s.threads[i].Retesting?) && s.word != 0 ==> Do(s, Advance(i)) == s
  {
    assert s.threads[i := s.threads[i]] == s.threads;
  }

  /** A release needs no one else: three steps for a reader, of which the last makes the word one less, and one for a
      writer, which makes it zero. */
  lemma {:induction false} ReleaseSteps(s: State, i: nat)
    requires i < |s.threads| && 0 < s.word < WRAP
    ensures s.threads[i].Reading? ==> Solo(s, i, 3) == State(s.word - 1, s.threads[i := Idle])
    ensures s.threads[i].Writing? && s.word == WRITER_HELD ==> Solo(s, i, 1) == State(0, s.threads[i := Idle])
  {
    if s.threads[i].Reading? {
      var s1 := Do(s, Advance(i));
      var s2 := Do(s1, Advance(i));
      var s3 := Do(s2, Advance(i));
      assert Solo(s, i, 3) == Solo(s1, i, 2) == Solo(s2, i, 1) == s3;
      assert s3.threads == s.threads[i := Idle];
    } else if s.threads[i].Writing? {
      assert Solo(s, i, 1) == Do(s, Advance(i));
    }
  }

  // ------------------------------------------------------------ too many readers

  /** Of `n` threads the first `k` hold the lock for reading. */
  function Crowd(n: nat, k: nat): seq<Thread> {
    seq(n, i => if i < k then Reading else Idle)
  }

  lemma NoCrowd(n: nat)
    ensures forall i :: 0 <= i < n ==> Crowd(n, 0)[i].Idle?
  {
  }

  lemma {:induction false} OneMore(n: nat, k: nat)
    requires k < n
    ensures Crowd(n, k)[k].Idle? && Crowd(n, k)[k := Reading] == Crowd(n, k + 1)
  {
  }

  /** The steps of one acquisition, starting from word `w`. */
  lemma {:induction false} AcquireSteps(s: State, i: nat)
    requires i < |s.threads| && s.threads[i].Idle? && s.word < WRITER_HELD
    ensures Enabled(s, AcquireRead(i))
    ensures var s1 := Do(s, AcquireRead(i)); Enabled(s1, Advance(i))
    ensures var s2 := Do(Do(s, AcquireRead(i)), Advance(i));
      && Enabled(s2, Advance(i)) && s2 == State(s.word, s.threads[i := Swapping(false, s.word)])
      && Do(s2, Advance(i)) == State(s.word + 1, s.threads[i := Reading])
  {
    FlagIsHighBit(s.word);
    var s1 := Do(s, AcquireRead(i));
    var s2 := Do(s1, Advance(i));
    assert s2.threads == s.threads[i := Swapping(false, s.word)];
    assert s2.threads[i := Reading] == s.threads[i := Reading];
  }

  lemma {:induction false} RunOn(states: seq<State>, actions: seq<Action>, a: Action)
    requires Run(states, actions) && Enabled(states[|actions|], a)
    ensures Run(states + [Do(states[|actions|], a)], actions + [a])
  {
    var t, c := states + [Do(states[|actions|], a)], actions + [a];
    forall k | 0 <= k < |c| ensures Enabled(t[k], c[k]) && t[k + 1] == Do(t[k], c[k]) {
      if k < |actions| {
        assert states[k + 1] == Do(states[k], actions[k]);
      }
    }
  }

  /** Any number of threads below the bound can hold the lock at once. */
  lemma {:induction false} CrowdRun(n: nat, k: nat) returns (states: seq<State>, actions: seq<Action>)
    requires k <= n && k <= WRITER_HELD
    ensures Run(states, actions) && states[|actions|] == State(k, Crowd(n, k))
    decreases k
  {
    if k == 0 {
      NoCrowd(n);
      states, actions := [State(0, Crowd(n, 0))], [];
    } else {
      states, actions := CrowdRun(n, k - 1);
      hide Crowd, Do, Run, Enabled;
      OneMore(n, k - 1);
      var s := State(k - 1, Crowd(n, k - 1));
      AcquireSteps(s, k - 1);
      states, actions := AcquireRun(states, actions, s, k - 1);
    }
  }

  ghost predicate RunTo(states: seq<State>, actions: seq<Action>, s: State) {
    Run(states, actions) && |states| == |actions| + 1 && states[|actions|] == s
  }

  lemma {:induction false} AcquireRun(states0: seq<State>, actions0: seq<Action>, s: State, i: nat)
    returns (states: seq<State>, actions: seq<Action>)
    requires RunTo(states0, actions0, s) && i < |s.threads| && s.threads[i].Idle? && s.word < WRITER_HELD
    ensures RunTo(states, actions, State(s.word + 1, s.threads[i := Reading]))
  {
    AcquireSteps(s, i);
    hide Do, Run, Enabled;
    states, actions := Go(states0, actions0, s, AcquireRead(i));
    var s1 := Do(s, AcquireRead(i));
    states, actions := Go(states, actions, s1, Advance(i));
    states, actions := Go(states, actions, Do(s1, Advance(i)), Advance(i));
  }

  lemma {:induction false} Go(states0: seq<State>, actions0: seq<Action>, s: State, a: Action)
    returns (states: seq<State>, actions: seq<Action>)
    requires RunTo(states0, actions0, s) && Enabled(s, a)
    ensures RunTo(states, actions, Do(s, a))
  {
    hide Do, Run, Enabled;
    RunOn(states0, actions0, a);
    states, actions := states0 + [Do(s, a)], actions0 + [a];
  }

  /** A run of 2^31 threads at whose end a reader that releases the lock finds its second assertion false: the last
      reader has turned the word into the writer flag. */
  lemma {:induction false} TooManyReaders() returns (states: seq<State>, actions: seq<Action>)
    ensures RunTo(states, actions, State(WRITER_HELD, Crowd(WRITER_HELD, WRITER_HELD)[0 := Leaving]))
    ensures var s := states[|actions|]; Enabled(s, Advance(0)) && !Asserts(s, Advance(0))
  {
    var n := WRITER_HELD;
    states, actions := CrowdRun(n, n);
    var s := State(n, Crowd(n, n));
    assert s.threads[0].Reading?;
    states, actions := Go(states, actions, s, Advance(0));
    FlagIsHighBit(n);
  }
}
