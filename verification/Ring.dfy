/**
 The shared-memory ring queue of capio/common/queue.hpp: a byte buffer of `capacity` elements,
 two byte offsets, two counting semaphores and a mutex that the single-producer,
 single-consumer instance leaves out. Any number of producers and consumers step in any order;
 one step is one semaphore operation, one lock operation, one copy or one offset update.
 */
module Ring {
  import opened Bytes

  datatype Phase =
    | Waiting   // about to wait on its semaphore
    | Waited    // about to take the mutex
    | Locked    // about to copy
    | Copied    // about to move its offset
    | Advanced  // about to post the other semaphore
    | Posted    // about to leave the mutex

  /** A thread that calls _write on each piece in turn, or _read for each length in turn. */
  datatype Job =
    | Write(pieces: seq<Data>)
    | Read(lengths: seq<nat>, got: seq<Data>)

  datatype Thread = Thread(job: Job, phase: Phase)

  /**
   `elems` and `empty` are the semaphores, `first` and `last` the byte offsets into `shm`.
   `written` and `taken` record the elements copied in and out, in order.
   */
  datatype State = State(
    capacity: nat, elemSize: nat, locking: bool,
    elems: nat, empty: nat, first: int, last: int, shm: Data,
    threads: seq<Thread>,
    written: seq<Data>, taken: seq<Data>)

  predicate Idle(th: Thread) {
    th.phase == Waiting && (if th.job.Write? then th.job.pieces == [] else th.job.lengths == [])
  }

  predicate InSection(th: Thread) {
    th.phase == Locked || th.phase == Copied || th.phase == Advanced || th.phase == Posted
  }

  predicate NobodyInSection(s: State) {
    forall i :: 0 <= i < |s.threads| ==> !InSection(s.threads[i])
  }

  // ---------------------------------------------------------------------------
  // Steps
  // ---------------------------------------------------------------------------

  predicate Enabled(s: State, t: nat) {
    t < |s.threads|
    && var th := s.threads[t];
    && !Idle(th)
    && (th.phase == Waiting ==> if th.job.Write? then s.empty > 0 else s.elems > 0)
    && (th.phase == Waited ==> !s.locking || NobodyInSection(s))
  }

  /** The pieces fit an element and the offsets lie inside the buffer. */
  predicate InBounds(s: State) {
    && s.capacity >= 1 && s.elemSize >= 1
    && |s.shm| == s.capacity * s.elemSize
    && 0 <= s.first && s.first + s.elemSize <= |s.shm|
    && 0 <= s.last && s.last + s.elemSize <= |s.shm|
    && forall i :: 0 <= i < |s.threads| ==> Fits(s.threads[i], s.elemSize)
  }

  predicate Fits(th: Thread, elemSize: nat) {
    && (th.phase != Waiting ==> if th.job.Write? then th.job.pieces != [] else th.job.lengths != [])
    && (th.job.Write? ==> forall k :: 0 <= k < |th.job.pieces| ==> |th.job.pieces[k]| <= elemSize)
    && (th.job.Read? ==> forall k :: 0 <= k < |th.job.lengths| ==> th.job.lengths[k] <= elemSize)
  }

  function Next(s: State, offset: int): int
    requires InBounds(s)
  {
    (offset + s.elemSize) % (s.capacity * s.elemSize)
  }

  function WriteStep(s: State, t: nat): State
    requires InBounds(s) && Enabled(s, t) && s.threads[t].job.Write?
  {
    var th := s.threads[t];
    match th.phase
    case Waiting => s.(empty := s.empty - 1, threads := s.threads[t := th.(phase := Waited)])
    case Waited => s.(threads := s.threads[t := th.(phase := Locked)])
    case Locked =>
      var shm := Overlay(s.shm, s.last, th.job.pieces[0]);
      s.(shm := shm, written := s.written + [shm[s.last..s.last + s.elemSize]],
         threads := s.threads[t := th.(phase := Copied)])
    case Copied => s.(last := Next(s, s.last), threads := s.threads[t := th.(phase := Advanced)])
    case Advanced => s.(elems := s.elems + 1, threads := s.threads[t := th.(phase := Posted)])
    case Posted => s.(threads := s.threads[t := Thread(Write(th.job.pieces[1..]), Waiting)])
  }

  function ReadStep(s: State, t: nat): State
    requires InBounds(s) && Enabled(s, t) && s.threads[t].job.Read?
  {
    var th := s.threads[t];
    match th.phase
    case Waiting => s.(elems := s.elems - 1, threads := s.threads[t := th.(phase := Waited)])
    case Waited => s.(threads := s.threads[t := th.(phase := Locked)])
    case Locked =>
      s.(taken := s.taken + [s.shm[s.first..s.first + s.elemSize]],
         threads := s.threads[t := 
           Thread(th.job.(got := th.job.got + [s.shm[s.first..s.first + th.job.lengths[0]]]), Copied)])
    case Copied => s.(first := Next(s, s.first), threads := s.threads[t := th.(phase := Advanced)])
    case Advanced => s.(empty := s.empty + 1, threads := s.threads[t := th.(phase := Posted)])
    case Posted => s.(threads := s.threads[t := Thread(th.job.(lengths := th.job.lengths[1..]), Waiting)])
  }

  function Step(s: State, t: nat): State
    requires InBounds(s) && Enabled(s, t)
  {
    if s.threads[t].job.Write? then WriteStep(s, t) else ReadStep(s, t)
  }

  // ---------------------------------------------------------------------------
  // Counting threads
  // ---------------------------------------------------------------------------

  function Count(threads: seq<Thread>, f: Thread -> bool): nat {
    if threads == [] then 0 else (if f(threads[0]) then 1 else 0) + Count(threads[1..], f)
  }

  lemma {:induction false} CountUpdate(threads: seq<Thread>, t: nat, th: Thread, f: Thread -> bool)
    requires t < |threads|
    ensures Count(threads[t := th], f)
            == Count(threads, f) - (if f(threads[t]) then 1 else 0) + (if f(th) then 1 else 0)
  {
    if t == 0 {
      assert threads[t := th][1..] == threads[1..];
    } else {
      assert threads[t := th][1..] == threads[1..][t - 1 := th];
      CountUpdate(threads[1..], t - 1, th, f);
    }
  }

  lemma {:induction false} CountWitness(threads: seq<Thread>, t: nat, f: Thread -> bool)
    requires t < |threads| && f(threads[t])
    ensures Count(threads, f) >= 1
  {
    if t > 0 { CountWitness(threads[1..], t - 1, f); }
  }

  lemma {:induction false} CountNone(threads: seq<Thread>, f: Thread -> bool)
    requires forall i :: 0 <= i < |threads| ==> !f(threads[i])
    ensures Count(threads, f) == 0
  {
    if threads != [] { CountNone(threads[1..], f); }
  }

  /** Past the wait on the semaphore and before the copy. */
  predicate WriterClaimed(th: Thread) { th.job.Write? && (th.phase == Waited || th.phase == Locked) }

  predicate ReaderClaimed(th: Thread) { th.job.Read? && (th.phase == Waited || th.phase == Locked) }

  /** Past the copy and before the post of the other semaphore. */
  predicate WriterCopied(th: Thread) { th.job.Write? && (th.phase == Copied || th.phase == Advanced) }

  predicate ReaderCopied(th: Thread) { th.job.Read? && (th.phase == Copied || th.phase == Advanced) }

  /** Copied, with the offset still at the element copied. */
  predicate WriterLags(th: Thread) { th.job.Write? && th.phase == Copied }

  predicate ReaderLags(th: Thread) { th.job.Read? && th.phase == Copied }

  // ---------------------------------------------------------------------------
  // Slots of the byte buffer
  // ---------------------------------------------------------------------------

  function Slot(shm: Data, elemSize: nat, k: nat): Data
    requires (k + 1) * elemSize <= |shm|
  {
    assert k * elemSize <= (k + 1) * elemSize;
    shm[k * elemSize..(k + 1) * elemSize]
  }

  lemma SlotInside(capacity: nat, elemSize: nat, k: nat)
    requires k < capacity
    ensures 0 <= k * elemSize && (k + 1) * elemSize <= capacity * elemSize
    ensures (k + 1) * elemSize == k * elemSize + elemSize
  {
    assert capacity * elemSize == (k + 1) * elemSize + (capacity - k - 1) * elemSize;
  }

  lemma SlotsApart(elemSize: nat, j: nat, k: nat)
    requires j < k
    ensures (j + 1) * elemSize <= k * elemSize
  {
    assert k * elemSize == (j + 1) * elemSize + (k - j - 1) * elemSize;
  }

  /** Copying a piece into a slot changes that slot only, and puts the piece at its front. */
  lemma OverlaySlots(shm: Data, capacity: nat, elemSize: nat, k: nat, d: Data, j: nat)
    requires |shm| == capacity * elemSize && k < capacity && j < capacity && |d| <= elemSize
    requires (k + 1) * elemSize <= |shm| && (j + 1) * elemSize <= |shm| && 0 <= k * elemSize
    requires (k + 1) * elemSize == k * elemSize + elemSize
    ensures Slot(Overlay(shm, k * elemSize, d), elemSize, j)
            == if j == k then d + Slot(shm, elemSize, k)[|d|..] else Slot(shm, elemSize, j)
  {
    SlotInside(capacity, elemSize, j);
    if j < k { SlotsApart(elemSize, j, k); }
    if k < j { SlotsApart(elemSize, k, j); }
    OverlayRange(shm, k * elemSize, d, j * elemSize, elemSize);
  }

  lemma OverlayRange(shm: Data, at: nat, d: Data, b: nat, n: nat)
    requires at + |d| <= |shm| && b + n <= |shm| && |d| <= n
    ensures b == at ==> Overlay(shm, at, d)[b..b + n] == d + shm[b..b + n][|d|..]
    ensures b + n <= at || at + n <= b ==> Overlay(shm, at, d)[b..b + n] == shm[b..b + n]
  {
    hide Overlay;
    var r, was := Overlay(shm, at, d)[b..b + n], shm[b..b + n];
    forall i | 0 <= i < n ensures r[i] == if at <= b + i < at + |d| then d[b + i - at] else was[i] {
      OverlayAt(shm, at, d, b + i);
    }
    if b == at {
      var placed := d + was[|d|..];
      assert forall i :: 0 <= i < n ==> placed[i] == r[i];
    }
  }

  /** The offset update of the code moves to the next slot, cyclically. */
  lemma NextSlot(capacity: nat, elemSize: nat, n: nat)
    requires capacity >= 1 && elemSize >= 1
    ensures ((n % capacity) * elemSize + elemSize) % (capacity * elemSize) == ((n + 1) % capacity) * elemSize
  {
    var k := n % capacity;
    SlotInside(capacity, elemSize, k);
    ModSucc(n, capacity);
    if k + 1 < capacity {
      SlotInside(capacity, elemSize, k + 1);
      ModSmall((k + 1) * elemSize, capacity * elemSize);
    } else {
      ModSelf(capacity * elemSize);
    }
  }

  lemma ModSucc(n: nat, m: nat)
    requires m >= 1
    ensures (n + 1) % m == if n % m + 1 == m then 0 else n % m + 1
  {
    var q, r := n / m, n % m;
    assert n == q * m + r;
    if r + 1 == m {
      assert n + 1 == (q + 1) * m;
      ModUnique(n + 1, m, q + 1, 0);
    } else {
      ModUnique(n + 1, m, q, r + 1);
    }
  }

  lemma ModUnique(n: int, m: nat, q: int, r: nat)
    requires r < m && n == q * m + r
    ensures n % m == r
  {
    var q', r' := n / m, n % m;
    assert n == q' * m + r';
    assert (q - q') * m == r' - r;
    assert q - q' >= 1 ==> (q - q') * m >= m;
    assert q' - q >= 1 ==> (q' - q) * m >= m;
  }

  lemma ModSmall(n: nat, m: nat)
    requires n < m
    ensures n % m == n
  {
    ModUnique(n, m, 0, n);
  }

  lemma ModSelf(m: nat)
    requires m >= 1
    ensures m % m == 0
  {
    ModUnique(m, m, 1, 0);
  }

  /** Indices closer than the capacity fall in different slots. */
  lemma ModDistinct(i: nat, j: nat, m: nat)
    requires i < j < i + m
    ensures i % m != j % m
  {
    var q, r := i / m, i % m;
    assert i == q * m + r;
    var r' := r + (j - i);
    if r' < m {
      ModUnique(j, m, q, r');
    } else {
      assert j == (q + 1) * m + (r' - m);
      ModUnique(j, m, q + 1, r' - m);
    }
  }

  // ---------------------------------------------------------------------------
  // Invariant
  // ---------------------------------------------------------------------------

  /** The semaphores and the threads between a wait and a post account for every slot. */
  ghost predicate Accounts(s: State) {
    && |s.taken| <= |s.written| <= |s.taken| + s.capacity
    && s.elems + Count(s.threads, ReaderClaimed) + Count(s.threads, WriterCopied) == |s.written| - |s.taken|
    && s.empty + Count(s.threads, WriterClaimed) + Count(s.threads, ReaderCopied)
       == s.capacity - (|s.written| - |s.taken|)
  }

  /** At most one producer and one consumer are in their section; with a mutex, at most one thread. */
  ghost predicate Exclusive(s: State) {
    forall i, j | 0 <= i < |s.threads| && 0 <= j < |s.threads| && i != j ::
      s.locking || s.threads[i].job.Write? == s.threads[j].job.Write? ==>
        !(InSection(s.threads[i]) && InSection(s.threads[j]))
  }

  /** Without a mutex, at most one thread of each kind. */
  ghost predicate SingleOrLocking(s: State) {
    s.locking
    || forall i, j | 0 <= i < |s.threads| && 0 <= j < |s.threads| && i != j ::
         s.threads[i].job.Write? != s.threads[j].job.Write?
  }

  /** The offsets point at the next slot to write and the next to read. */
  ghost predicate Offsets(s: State)
    requires s.capacity >= 1
  {
    && Count(s.threads, WriterLags) <= |s.written|
    && Count(s.threads, ReaderLags) <= |s.taken|
    && s.last == ((|s.written| - Count(s.threads, WriterLags)) % s.capacity) * s.elemSize
    && s.first == ((|s.taken| - Count(s.threads, ReaderLags)) % s.capacity) * s.elemSize
  }

  /** The slots from the next to read to the next to write hold the unread elements. */
  ghost predicate Holds(s: State)
    requires s.capacity >= 1 && |s.shm| == s.capacity * s.elemSize
  {
    && s.taken <= s.written
    && forall k :: |s.taken| <= k < |s.written| ==>
         SlotIs(s.shm, s.capacity, s.elemSize, k, s.written[k])
  }

  ghost predicate SlotIs(shm: Data, capacity: nat, elemSize: nat, k: nat, d: Data)
    requires capacity >= 1 && |shm| == capacity * elemSize
  {
    SlotInside(capacity, elemSize, k % capacity);
    Slot(shm, elemSize, k % capacity) == d
  }

  ghost predicate Inv(s: State) {
    InBounds(s) && Exclusive(s) && SingleOrLocking(s) && Accounts(s) && Offsets(s) && Holds(s)
  }

  /** The thread after its step. */
  function StepThread(s: State, t: nat): Thread
    requires InBounds(s) && Enabled(s, t)
  {
    Step(s, t).threads[t]
  }

  /** The order of the phases. */
  predicate Steps(p: Phase, q: Phase) {
    match p
    case Waiting => q == Waited
    case Waited => q == Locked
    case Locked => q == Copied
    case Copied => q == Advanced
    case Advanced => q == Posted
    case Posted => q == Waiting
  }

  lemma StepFrame(s: State, t: nat)
    requires InBounds(s) && Enabled(s, t)
    ensures Step(s, t).threads == s.threads[t := StepThread(s, t)]
    ensures StepThread(s, t).job.Write? == s.threads[t].job.Write?
    ensures Steps(s.threads[t].phase, StepThread(s, t).phase)
    ensures Step(s, t).capacity == s.capacity && Step(s, t).elemSize == s.elemSize
            && Step(s, t).locking == s.locking && |Step(s, t).shm| == |s.shm|
    ensures Fits(StepThread(s, t), s.elemSize)
  {
    assert Fits(s.threads[t], s.elemSize);
  }

  lemma StepKeepsExclusive(s: State, t: nat)
    requires InBounds(s) && Exclusive(s) && SingleOrLocking(s) && Enabled(s, t)
    ensures Exclusive(Step(s, t)) && SingleOrLocking(Step(s, t))
  {
    StepFrame(s, t);
    var s' := Step(s, t);
    assert forall i :: 0 <= i < |s.threads| && i != t ==> s'.threads[i] == s.threads[i];
    assert InSection(s'.threads[t]) ==> InSection(s.threads[t]) || s.threads[t].phase == Waited;
  }

  lemma StepKeepsAccounts(s: State, t: nat)
    requires Inv(s) && Enabled(s, t)
    ensures Accounts(Step(s, t))
    ensures s.threads[t].job.Write? && s.threads[t].phase == Locked ==> |s.written| < |s.taken| + s.capacity
    ensures s.threads[t].job.Read? && s.threads[t].phase == Locked ==> |s.taken| < |s.written|
  {
    StepFrame(s, t);
    var th := StepThread(s, t);
    CountUpdate(s.threads, t, th, WriterClaimed);
    CountUpdate(s.threads, t, th, WriterCopied);
    CountUpdate(s.threads, t, th, ReaderClaimed);
    CountUpdate(s.threads, t, th, ReaderCopied);
    if WriterClaimed(s.threads[t]) { CountWitness(s.threads, t, WriterClaimed); }
    if ReaderClaimed(s.threads[t]) { CountWitness(s.threads, t, ReaderClaimed); }
  }

  lemma StepKeepsOffsets(s: State, t: nat)
    requires Inv(s) && Enabled(s, t)
    ensures Offsets(Step(s, t))
  {
    hide Accounts, Holds, Exclusive, SingleOrLocking, Count, Overlay;
    StepFrame(s, t);
    var th := StepThread(s, t);
    CountUpdate(s.threads, t, th, WriterLags);
    CountUpdate(s.threads, t, th, ReaderLags);
    if WriterLags(s.threads[t]) { CountWitness(s.threads, t, WriterLags); }
    if ReaderLags(s.threads[t]) { CountWitness(s.threads, t, ReaderLags); }
    NextSlot(s.capacity, s.elemSize, |s.written| - Count(s.threads, WriterLags));
    NextSlot(s.capacity, s.elemSize, |s.taken| - Count(s.threads, ReaderLags));
  }

  /** A thread about to copy is alone in its section, so its offset is at the next slot. */
  lemma AloneAtCopy(s: State, t: nat)
    requires Inv(s) && t < |s.threads| && s.threads[t].phase == Locked
    ensures s.threads[t].job.Write? ==> Count(s.threads, WriterLags) == 0
    ensures s.threads[t].job.Read? ==> Count(s.threads, ReaderLags) == 0
  {
    if s.threads[t].job.Write? {
      forall i | 0 <= i < |s.threads| ensures !WriterLags(s.threads[i]) {
        if i != t && WriterLags(s.threads[i]) { assert InSection(s.threads[i]) && InSection(s.threads[t]); }
      }
      CountNone(s.threads, WriterLags);
    } else {
      forall i | 0 <= i < |s.threads| ensures !ReaderLags(s.threads[i]) {
        if i != t && ReaderLags(s.threads[i]) { assert InSection(s.threads[i]) && InSection(s.threads[t]); }
      }
      CountNone(s.threads, ReaderLags);
    }
  }

  /** The copy of a producer falls in a slot that holds no unread element. */
  lemma WriteKeepsHolds(s: State, t: nat)
    requires Inv(s) && Enabled(s, t) && s.threads[t].job.Write? && s.threads[t].phase == Locked
    ensures Holds(Step(s, t))
    ensures s.threads[t].job.pieces[0] <= Step(s, t).written[|s.written|]
  {
    StepKeepsAccounts(s, t);
    AloneAtCopy(s, t);
    var s' := Step(s, t);
    var w := |s.written| % s.capacity;
    var d := s.threads[t].job.pieces[0];
    SlotInside(s.capacity, s.elemSize, w);
    assert Fits(s.threads[t], s.elemSize);
    forall k | |s'.taken| <= k < |s'.written|
      ensures SlotIs(s'.shm, s.capacity, s.elemSize, k, s'.written[k])
    {
      SlotInside(s.capacity, s.elemSize, k % s.capacity);
      OverlaySlots(s.shm, s.capacity, s.elemSize, w, d, k % s.capacity);
      if k < |s.written| {
        ModDistinct(k, |s.written|, s.capacity);
        assert SlotIs(s.shm, s.capacity, s.elemSize, k, s.written[k]);
      }
    }
    OverlaySlots(s.shm, s.capacity, s.elemSize, w, d, w);
  }

  lemma OldestAtFirst(s: State, t: nat)
    requires Inv(s) && Enabled(s, t) && s.threads[t].job.Read? && s.threads[t].phase == Locked
    ensures |s.taken| < |s.written|
    ensures s.shm[s.first..s.first + s.elemSize] == s.written[|s.taken|]
  {
    StepKeepsAccounts(s, t);
    AloneAtCopy(s, t);
    SlotInside(s.capacity, s.elemSize, |s.taken| % s.capacity);
    assert SlotIs(s.shm, s.capacity, s.elemSize, |s.taken|, s.written[|s.taken|]);
  }

  lemma SlicePrefix(d: Data, at: nat, n: nat, m: nat)
    requires n <= m && at + m <= |d|
    ensures d[at..at + n] == d[at..at + m][..n]
  {
  }

  /** The copy of a consumer takes the oldest unread element. */
  lemma ReadTakesOldest(s: State, t: nat)
    requires Inv(s) && Enabled(s, t) && s.threads[t].job.Read? && s.threads[t].phase == Locked
    ensures |s.taken| < |s.written|
    ensures Step(s, t).taken == s.taken + [s.written[|s.taken|]]
    ensures var n := s.threads[t].job.lengths[0];
            && n <= |s.written[|s.taken|]|
            && Step(s, t).threads[t].job.got == s.threads[t].job.got + [s.written[|s.taken|][..n]]
  {
    OldestAtFirst(s, t);
    assert Fits(s.threads[t], s.elemSize);
    SlicePrefix(s.shm, s.first, s.threads[t].job.lengths[0], s.elemSize);
  }

  lemma ReadKeepsHolds(s: State, t: nat)
    requires Inv(s) && Enabled(s, t) && s.threads[t].job.Read? && s.threads[t].phase == Locked
    ensures Holds(Step(s, t))
  {
    ReadTakesOldest(s, t);
    var s' := Step(s, t);
    assert s'.written == s.written && s'.shm == s.shm && s'.capacity == s.capacity && s'.elemSize == s.elemSize;
    assert s'.taken <= s'.written;
  }

  lemma StepKeepsHolds(s: State, t: nat)
    requires Inv(s) && Enabled(s, t)
    ensures Holds(Step(s, t))
  {
    if s.threads[t].phase == Locked {
      if s.threads[t].job.Write? { WriteKeepsHolds(s, t); } else { ReadKeepsHolds(s, t); }
    }
  }

  lemma StepKeepsInv(s: State, t: nat)
    requires Inv(s) && Enabled(s, t)
    ensures Inv(Step(s, t))
  {
    StepFrame(s, t);
    StepKeepsExclusive(s, t);
    StepKeepsAccounts(s, t);
    StepKeepsOffsets(s, t);
    StepKeepsHolds(s, t);
    var s' := Step(s, t);
    SlotInside(s.capacity, s.elemSize, (|s'.written| - Count(s'.threads, WriterLags)) % s.capacity);
    SlotInside(s.capacity, s.elemSize, (|s'.taken| - Count(s'.threads, ReaderLags)) % s.capacity);
    assert forall i :: 0 <= i < |s.threads| && i != t ==> s'.threads[i] == s.threads[i];
  }

  // ---------------------------------------------------------------------------
  // Runs
  // ---------------------------------------------------------------------------

  /** A new queue, and any threads about to use it. */
  ghost predicate Initial(s: State) {
    && s.capacity >= 1 && s.elemSize >= 1
    && |s.shm| == s.capacity * s.elemSize
    && s.elems == 0 && s.empty == s.capacity && s.first == 0 && s.last == 0
    && s.written == [] && s.taken == []
    && SingleOrLocking(s)
    && forall i :: 0 <= i < |s.threads| ==> s.threads[i].phase == Waiting && Fits(s.threads[i], s.elemSize)
  }

  lemma InitialInv(s: State)
    requires Initial(s)
    ensures Inv(s)
  {
    SlotInside(s.capacity, s.elemSize, 0);
    CountNone(s.threads, WriterClaimed);
    CountNone(s.threads, WriterCopied);
    CountNone(s.threads, ReaderClaimed);
    CountNone(s.threads, ReaderCopied);
    CountNone(s.threads, WriterLags);
    CountNone(s.threads, ReaderLags);
    ModSmall(0, s.capacity);
  }

  ghost predicate IsRun(s: State, run: seq<nat>)
    decreases |run|
  {
    run == [] || (InBounds(s) && Enabled(s, run[0]) && IsRun(Step(s, run[0]), run[1..]))
  }

  ghost function Final(s: State, run: seq<nat>): State
    requires IsRun(s, run)
    decreases |run|
  {
    if run == [] then s else Final(Step(s, run[0]), run[1..])
  }

  lemma {:induction false} RunKeepsInv(s: State, run: seq<nat>)
    requires Inv(s) && IsRun(s, run)
    ensures Inv(Final(s, run))
    decreases |run|
  {
    if run != [] {
      StepKeepsInv(s, run[0]);
      RunKeepsInv(Step(s, run[0]), run[1..]);
    }
  }

  /** The elements in the ring, oldest first. */
  ghost function Contents(s: State): seq<Data>
    requires Inv(s)
  {
    seq(|s.written| - |s.taken|, i requires 0 <= i < |s.written| - |s.taken| =>
      SlotInside(s.capacity, s.elemSize, (|s.taken| + i) % s.capacity);
      Slot(s.shm, s.elemSize, (|s.taken| + i) % s.capacity))
  }

  /**
   In every state of every run: the semaphores and the threads between a wait and a post sum to
   the capacity, and what was read followed by what the ring holds is what was written.
   */
  lemma RingSafety(s: State, run: seq<nat>)
    requires Initial(s) && IsRun(s, run)
    ensures var f := Final(s, run);
            && Inv(f)
            && f.elems + f.empty + Count(f.threads, WriterClaimed) + Count(f.threads, WriterCopied)
               + Count(f.threads, ReaderClaimed) + Count(f.threads, ReaderCopied) == f.capacity
            && f.taken + Contents(f) == f.written
  {
    InitialInv(s);
    RunKeepsInv(s, run);
    ContentsAreUnread(Final(s, run));
  }

  lemma ContentsAreUnread(f: State)
    requires Inv(f)
    ensures Contents(f) == f.written[|f.taken|..]
  {
    forall i | 0 <= i < |f.written| - |f.taken| ensures Contents(f)[i] == f.written[|f.taken| + i] {
      assert SlotIs(f.shm, f.capacity, f.elemSize, |f.taken| + i, f.written[|f.taken| + i]);
    }
  }

  /** No unread slot is overwritten: a copy into the ring leaves every unread element as it was. */
  lemma NoOverwrite(s: State, run: seq<nat>, t: nat, i: nat)
    requires Initial(s) && IsRun(s, run) && Enabled(Final(s, run), t)
    requires Inv(Final(s, run)) && i < |Contents(Final(s, run))|
    requires Final(s, run).threads[t].job.Write?
    ensures Inv(Step(Final(s, run), t))
    ensures i < |Contents(Step(Final(s, run), t))|
    ensures Contents(Step(Final(s, run), t))[i] == Contents(Final(s, run))[i]
  {
    var f := Final(s, run);
    StepKeepsInv(f, t);
    ContentsAreUnread(f);
    ContentsAreUnread(Step(f, t));
    assert f.written <= Step(f, t).written && f.taken == Step(f, t).taken;
  }

  // ---------------------------------------------------------------------------
  // Who wrote and who took which element
  // ---------------------------------------------------------------------------

  /** The elements of `xs` that belong to thread `t`, in order; `who` names the thread of each. */
  function Of(xs: seq<Data>, who: seq<nat>, t: nat): seq<Data>
    requires |who| == |xs|
  {
    if xs == [] then []
    else
      var n := |xs| - 1;
      Of(xs[..n], who[..n], t) + (if who[n] == t then [xs[n]] else [])
  }

  lemma OfAppend(xs: seq<Data>, who: seq<nat>, x: Data, w: nat, t: nat)
    requires |who| == |xs|
    ensures Of(xs + [x], who + [w], t) == if w == t then Of(xs, who, t) + [x] else Of(xs, who, t)
  {
    assert (xs + [x])[..|xs|] == xs && (who + [w])[..|xs|] == who;
  }

  /** The calls of a thread that have copied, out of `before`, when `left` are not finished. */
  function CopiedCalls(before: nat, left: nat, phase: Phase): int {
    before - left + (if phase == Copied || phase == Advanced || phase == Posted then 1 else 0)
  }

  /** A producer has written its first pieces, each at the front of an element, in order. */
  ghost predicate Wrote(o: Thread, th: Thread, mine: seq<Data>) {
    && o.job.Write? && th.job.Write?
    && var all, left := o.job.pieces, th.job.pieces;
    && |left| <= |all| && left == all[|all| - |left|..]
    && |mine| == CopiedCalls(|all|, |left|, th.phase) <= |all|
    && forall i :: 0 <= i < |mine| ==> all[i] <= mine[i]
  }

  ghost predicate IsFront(d: Data, e: Data, n: nat) { n <= |e| && d == e[..n] }

  /** A consumer has got the front of each element it took, in order. */
  ghost predicate Got(o: Thread, th: Thread, mine: seq<Data>) {
    && o.job.Read? && th.job.Read?
    && var all, left, n := o.job.lengths, th.job.lengths, |o.job.got|;
    && |left| <= |all| && left == all[|all| - |left|..]
    && |mine| == CopiedCalls(|all|, |left|, th.phase) <= |all|
    && |th.job.got| == n + |mine| && th.job.got[..n] == o.job.got
    && forall i :: 0 <= i < |mine| ==> IsFront(th.job.got[n + i], mine[i], all[i])
  }

  ghost predicate ThreadOwns(s0: State, s: State, from: seq<nat>, to: seq<nat>, t: nat)
    requires t < |s0.threads| == |s.threads| && |from| == |s.written| && |to| == |s.taken|
  {
    if s0.threads[t].job.Write? then Wrote(s0.threads[t], s.threads[t], Of(s.written, from, t))
    else Got(s0.threads[t], s.threads[t], Of(s.taken, to, t))
  }

  /** `from` and `to` name the producer of each element written and the consumer of each element taken. */
  ghost predicate Owned(s0: State, s: State, from: seq<nat>, to: seq<nat>) {
    && |s.threads| == |s0.threads| && |from| == |s.written| && |to| == |s.taken|
    && (forall k :: 0 <= k < |from| ==> from[k] < |s.threads| && s.threads[from[k]].job.Write?)
    && (forall k :: 0 <= k < |to| ==> to[k] < |s.threads| && s.threads[to[k]].job.Read?)
    && (forall t: nat :: t < |s.threads| ==> ThreadOwns(s0, s, from, to, t))
  }

  /** A thread that moves on without a copy has the same elements. */
  lemma MovesOn(o: Thread, th: Thread, next: Thread, mine: seq<Data>, elemSize: nat)
    requires Fits(th, elemSize) && th.phase != Locked && Steps(th.phase, next.phase)
    requires next.job == JobAfter(th)
    ensures Wrote(o, th, mine) ==> Wrote(o, next, mine)
    ensures Got(o, th, mine) ==> Got(o, next, mine)
  {
    hide IsFront;
  }

  /** What is left to do after a step without a copy: a call that leaves the mutex is finished. */
  function JobAfter(th: Thread): Job {
    match th.job
    case Write(pieces) => if th.phase == Posted && pieces != [] then Write(pieces[1..]) else th.job
    case Read(lengths, got) => if th.phase == Posted && lengths != [] then Read(lengths[1..], got) else th.job
  }

  lemma WroteOne(o: Thread, th: Thread, mine: seq<Data>, e: Data)
    requires Wrote(o, th, mine) && th.phase == Locked && th.job.pieces != [] && th.job.pieces[0] <= e
    ensures Wrote(o, th.(phase := Copied), mine + [e])
  {
    assert th.job.pieces[0] == o.job.pieces[|mine|];
  }

  lemma GotOne(o: Thread, th: Thread, mine: seq<Data>, e: Data, d: Data)
    requires Got(o, th, mine) && th.phase == Locked && th.job.lengths != [] && IsFront(d, e, th.job.lengths[0])
    ensures Got(o, Thread(th.job.(got := th.job.got + [d]), Copied), mine + [e])
  {
    hide IsFront;
    assert th.job.lengths[0] == o.job.lengths[|mine|];
  }

  /** What a step does to its thread and to the record of the copies. */
  ghost predicate Copies(s: State, t: nat, s': State)
    requires t < |s.threads| == |s'.threads|
  {
    var th, next := s.threads[t], s'.threads[t];
    if th.phase != Locked then
      && s'.written == s.written && s'.taken == s.taken && Steps(th.phase, next.phase)
      && next.job == JobAfter(th)
    else if th.job.Write? then
      && th.job.pieces != [] && next == th.(phase := Copied) && s'.taken == s.taken
      && |s'.written| == |s.written| + 1 && s'.written == s.written + [s'.written[|s.written|]]
      && th.job.pieces[0] <= s'.written[|s.written|]
    else
      && th.job.lengths != [] && s'.written == s.written
      && |s'.taken| == |s.taken| + 1 && s'.taken == s.taken + [s'.taken[|s.taken|]]
      && next.job.Read? && |next.job.got| == |th.job.got| + 1
      && IsFront(next.job.got[|th.job.got|], s'.taken[|s.taken|], th.job.lengths[0])
      && next == Thread(th.job.(got := th.job.got + [next.job.got[|th.job.got|]]), Copied)
  }

  lemma StepCopies(s: State, t: nat)
    requires Inv(s) && Enabled(s, t)
    ensures |Step(s, t).threads| == |s.threads| && Copies(s, t, Step(s, t))
  {
    assert Fits(s.threads[t], s.elemSize);
    if s.threads[t].phase == Locked {
      if s.threads[t].job.Write? { WriteKeepsHolds(s, t); } else { ReadTakesOldest(s, t); }
    }
    hide Accounts, Offsets, Holds, Exclusive, SingleOrLocking, Next, Fits;
  }

  /** The owners after a step: a copy adds its thread to those of its kind. */
  function Owners(who: seq<nat>, th: Thread, write: bool, t: nat): seq<nat> {
    if th.phase == Locked && th.job.Write? == write then who + [t] else who
  }

  lemma MoverOwns(s0: State, s: State, from: seq<nat>, to: seq<nat>, t: nat, s': State)
    requires t < |s0.threads| == |s.threads| == |s'.threads| && |from| == |s.written| && |to| == |s.taken|
    requires ThreadOwns(s0, s, from, to, t) && Copies(s, t, s') && Fits(s.threads[t], s.elemSize)
    ensures var th := s.threads[t];
            var from', to' := Owners(from, th, true, t), Owners(to, th, false, t);
            |from'| == |s'.written| && |to'| == |s'.taken| && ThreadOwns(s0, s', from', to', t)
            && s'.threads[t].job.Write? == th.job.Write?
  {
    hide Of, IsFront, Fits, CopiedCalls;
    var o, th := s0.threads[t], s.threads[t];
    var wrote, took := Of(s.written, from, t), Of(s.taken, to, t);
    if th.phase != Locked {
      MovesOn(o, th, s'.threads[t], if o.job.Write? then wrote else took, s.elemSize);
    } else if th.job.Write? {
      WroteOne(o, th, wrote, s'.written[|s.written|]);
      OfAppend(s.written, from, s'.written[|s.written|], t, t);
    } else {
      GotOne(o, th, took, s'.taken[|s.taken|], s'.threads[t].job.got[|th.job.got|]);
      OfAppend(s.taken, to, s'.taken[|s.taken|], t, t);
    }
  }

  lemma OthersOwn(s0: State, s: State, from: seq<nat>, to: seq<nat>, t: nat, s': State, u: nat)
    requires t < |s0.threads| == |s.threads| == |s'.threads| && |from| == |s.written| && |to| == |s.taken|
    requires u < |s.threads| && u != t && s'.threads[u] == s.threads[u]
    requires ThreadOwns(s0, s, from, to, u) && Copies(s, t, s')
    ensures var th := s.threads[t];
            var from', to' := Owners(from, th, true, t), Owners(to, th, false, t);
            |from'| == |s'.written| && |to'| == |s'.taken| && ThreadOwns(s0, s', from', to', u)
  {
    hide Of, IsFront, Wrote, Got;
    var th := s.threads[t];
    if th.phase == Locked && th.job.Write? {
      OfAppend(s.written, from, s'.written[|s.written|], t, u);
    } else if th.phase == Locked {
      OfAppend(s.taken, to, s'.taken[|s.taken|], t, u);
    }
  }

  lemma StepKeepsOwned(s0: State, s: State, from: seq<nat>, to: seq<nat>, t: nat)
    requires Inv(s) && Enabled(s, t) && Owned(s0, s, from, to)
    ensures t < |s.threads|
    ensures var th := s.threads[t];
            Owned(s0, Step(s, t), Owners(from, th, true, t), Owners(to, th, false, t))
  {
    hide Inv, InBounds, Step, Enabled, ThreadOwns, Copies, Fits;
    StepOthers(s, t);
    StepCopies(s, t);
    var s', th := Step(s, t), s.threads[t];
    var from', to' := Owners(from, th, true, t), Owners(to, th, false, t);
    MoverOwns(s0, s, from, to, t, s');
    forall u: nat | u < |s'.threads| ensures ThreadOwns(s0, s', from', to', u) {
      if u != t { OthersOwn(s0, s, from, to, t, s', u); }
    }
    forall k | 0 <= k < |from'| ensures from'[k] < |s'.threads| && s'.threads[from'[k]].job.Write? {
      assert k < |from| ==> from'[k] == from[k];
    }
    forall k | 0 <= k < |to'| ensures to'[k] < |s'.threads| && s'.threads[to'[k]].job.Read? {
      assert k < |to| ==> to'[k] == to[k];
    }
  }

  lemma StepOthers(s: State, t: nat)
    requires Inv(s) && Enabled(s, t)
    ensures InBounds(s) && t < |s.threads| == |Step(s, t).threads| && Fits(s.threads[t], s.elemSize)
    ensures forall i :: 0 <= i < |s.threads| && i != t ==> Step(s, t).threads[i] == s.threads[i]
  {
    StepFrame(s, t);
  }

  lemma {:induction false} RunKeepsOwned(s0: State, s: State, run: seq<nat>, from: seq<nat>, to: seq<nat>)
    returns (from': seq<nat>, to': seq<nat>)
    requires Inv(s) && Owned(s0, s, from, to) && IsRun(s, run)
    ensures Owned(s0, Final(s, run), from', to')
    decreases |run|
  {
    hide Inv, Owned, Step, Enabled, InBounds;
    from', to' := from, to;
    if run != [] {
      StepKeepsInv(s, run[0]);
      StepKeepsOwned(s0, s, from, to, run[0]);
      var th := s.threads[run[0]];
      var nextFrom, nextTo := Owners(from, th, true, run[0]), Owners(to, th, false, run[0]);
      from', to' := RunKeepsOwned(s0, Step(s, run[0]), run[1..], nextFrom, nextTo);
    }
  }

  /**
   Any number of producers and consumers, over every run: each element written is the next piece of one
   producer, each element taken is the oldest one left and goes to one consumer, and what a consumer
   has got is the front of each element it took, in order.
   */
  lemma ElementsAreDelivered(s: State, run: seq<nat>) returns (from: seq<nat>, to: seq<nat>)
    requires Initial(s) && IsRun(s, run)
    ensures Owned(s, Final(s, run), from, to) && Final(s, run).taken <= Final(s, run).written
  {
    hide IsRun, Final;
    InitialInv(s);
    forall t: nat | t < |s.threads| ensures ThreadOwns(s, s, [], [], t) {
      assert s.threads[t].phase == Waiting;
    }
    from, to := RunKeepsOwned(s, s, run, [], []);
    RunKeepsInv(s, run);
  }

  // ---------------------------------------------------------------------------
  // Progress
  // ---------------------------------------------------------------------------

  /**
   When no thread can step, every call under way has finished, and what is left is producers
   blocked on a full ring or consumers blocked on an empty one, never both.
   */
  lemma StuckMeansUnmatched(s: State, run: seq<nat>)
    requires Initial(s) && IsRun(s, run)
    requires forall t: nat :: !Enabled(Final(s, run), t)
    ensures var f := Final(s, run);
            && (forall i :: 0 <= i < |f.threads| ==> f.threads[i].phase == Waiting)
            && f.elems == |f.written| - |f.taken| && f.elems + f.empty == f.capacity
            && (forall i :: 0 <= i < |f.threads| && f.threads[i].job.Write? && !Idle(f.threads[i]) ==> f.empty == 0)
            && (forall i :: 0 <= i < |f.threads| && f.threads[i].job.Read? && !Idle(f.threads[i]) ==> f.elems == 0)
  {
    InitialInv(s);
    RunKeepsInv(s, run);
    var f := Final(s, run);
    assert NobodyInSection(f) by {
      forall i | 0 <= i < |f.threads| ensures !InSection(f.threads[i]) { assert !Enabled(f, i); }
    }
    forall i | 0 <= i < |f.threads|
      ensures f.threads[i].phase == Waiting
      ensures !Idle(f.threads[i]) ==> if f.threads[i].job.Write? then f.empty == 0 else f.elems == 0
    {
      assert !Enabled(f, i);
      assert Fits(f.threads[i], f.elemSize);
    }
    CountNone(f.threads, WriterClaimed);
    CountNone(f.threads, WriterCopied);
    CountNone(f.threads, ReaderClaimed);
    CountNone(f.threads, ReaderCopied);
  }

  function PhaseIndex(p: Phase): nat {
    match p
    case Waiting => 0
    case Waited => 1
    case Locked => 2
    case Copied => 3
    case Advanced => 4
    case Posted => 5
  }

  function StepsLeft(th: Thread): int {
    6 * (if th.job.Write? then |th.job.pieces| else |th.job.lengths|) - PhaseIndex(th.phase)
  }

  function TotalLeft(threads: seq<Thread>): int {
    if threads == [] then 0 else StepsLeft(threads[0]) + TotalLeft(threads[1..])
  }

  lemma {:induction false} TotalLeftUpdate(threads: seq<Thread>, t: nat, th: Thread)
    requires t < |threads|
    ensures TotalLeft(threads[t := th]) == TotalLeft(threads) - StepsLeft(threads[t]) + StepsLeft(th)
  {
    if t == 0 {
      assert threads[t := th][1..] == threads[1..];
    } else {
      assert threads[t := th][1..] == threads[1..][t - 1 := th];
      TotalLeftUpdate(threads[1..], t - 1, th);
    }
  }

  lemma {:induction false} TotalLeftNatural(threads: seq<Thread>, elemSize: nat)
    requires forall i :: 0 <= i < |threads| ==> Fits(threads[i], elemSize)
    ensures TotalLeft(threads) >= 0
  {
    if threads != [] { TotalLeftNatural(threads[1..], elemSize); }
  }

  /**
   Every run is exactly as long as the steps it takes off the calls its threads have to make, and
   so no longer than these calls need.
   */
  lemma {:induction false} RunsAreBounded(s: State, run: seq<nat>)
    requires Inv(s) && IsRun(s, run)
    ensures |run| == TotalLeft(s.threads) - TotalLeft(Final(s, run).threads)
    ensures |run| <= TotalLeft(s.threads)
    decreases |run|
  {
    TotalLeftNatural(s.threads, s.elemSize);
    if run != [] {
      StepKeepsInv(s, run[0]);
      StepFrame(s, run[0]);
      assert Fits(s.threads[run[0]], s.elemSize);
      TotalLeftUpdate(s.threads, run[0], StepThread(s, run[0]));
      RunsAreBounded(Step(s, run[0]), run[1..]);
    }
  }
}
