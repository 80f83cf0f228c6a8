/**
 The wait and commit protocol of a CAPIO file (capio/server/src/capio_file.cpp): threads that
 wait for data or for the commit, threads that insert sectors, and threads that set the commit
 flag, over `_mutex`, `_mutex_sectors` and the two condition variables. One step of one thread is
 one lock, unlock, test, update, wait or notification, and any thread may step at any time.
 */
module WaitCommit {
  import opened Bytes
  import opened Sectors

  /** What a thread does next. A lock is held by the threads whose next action lies inside it. */
  datatype Pc =
    // waitForData(off)
    | DataStart(off: int)              // takes _mutex
    | DataCheck(off: int)              // takes _mutex_sectors, shared
    | DataRead(off: int)               // reads the stored size, leaves _mutex_sectors
    | DataSeen(off: int, enough: bool) // returns, or leaves _mutex and sleeps
    | DataAsleep(off: int)
    // waitForCommit()
    | CommitStart
    | CommitCheck
    | CommitAsleep
    // insertSector(a, b)
    | InsertStart(a: int, b: int)      // takes _mutex_sectors
    | InsertLocked(a: int, b: int)     // changes the sectors
    | InsertChanged                    // leaves _mutex_sectors
    | InsertPending                    // takes _mutex
    | InsertNotify                     // notifies _data_avail_cv
    | InsertNotified                   // leaves _mutex
    // setCommitted(value)
    | SetStart(value: bool)            // takes _mutex
    | SetCheck(value: bool)            // compares and changes the flag
    | SetNotifyCommit                  // notifies _committed_cv
    | SetNotifyData                    // notifies _data_avail_cv
    | SetRelease                       // leaves _mutex
    // getSectorEnd, getFileSize, seekData, seekHole
    | QueryStart
    | QueryRead
    // expandBuffer
    | GrowStart
    | GrowLocked
    | GrowRead
    | GrowCopy
    // isCommitted, createBuffer, readFromQueue, readFromNode, copyFromFile
    | UseStart                         // takes _mutex
    | Using                            // works on the flag or the buffer, leaves _mutex
    | Done

  /** `sectors` and `committed` are the file; `threads` may be of any number. */
  datatype State = State(sectors: seq<Sector>, committed: bool, threads: seq<Pc>)

  datatype Event = Run(t: nat) | SpuriousWakeUp(t: nat)

  // ---------------------------------------------------------------------------
  // Locks
  // ---------------------------------------------------------------------------

  predicate HoldsMutex(p: Pc) {
    p.DataCheck? || p.DataRead? || p.DataSeen? || p.CommitCheck? || p.InsertNotify? || p.InsertNotified?
    || p.SetCheck? || p.SetNotifyCommit? || p.SetNotifyData? || p.SetRelease?
    || p.GrowLocked? || p.GrowRead? || p.GrowCopy? || p.Using?
  }

  predicate HoldsExclusive(p: Pc) { p.InsertLocked? || p.InsertChanged? }

  predicate HoldsShared(p: Pc) { p.DataRead? || p.QueryRead? || p.GrowRead? }

  predicate WantsMutex(p: Pc) {
    p.DataStart? || p.CommitStart? || p.InsertPending? || p.SetStart? || p.GrowStart? || p.UseStart?
  }

  predicate WantsShared(p: Pc) { p.DataCheck? || p.QueryStart? || p.GrowLocked? }

  predicate Resting(p: Pc) { p.Done? || p.DataAsleep? || p.CommitAsleep? }

  predicate MutexFree(s: State) { forall i :: 0 <= i < |s.threads| ==> !HoldsMutex(s.threads[i]) }

  predicate NoExclusive(s: State) { forall i :: 0 <= i < |s.threads| ==> !HoldsExclusive(s.threads[i]) }

  predicate NoShared(s: State) { forall i :: 0 <= i < |s.threads| ==> !HoldsShared(s.threads[i]) }

  // ---------------------------------------------------------------------------
  // Steps
  // ---------------------------------------------------------------------------

  predicate Enabled(s: State, t: nat) {
    t < |s.threads|
    && var p := s.threads[t];
    && !Resting(p)
    && (WantsMutex(p) ==> MutexFree(s))
    && (WantsShared(p) ==> NoExclusive(s))
    && (p.InsertStart? ==> NoExclusive(s) && NoShared(s))
  }

  function WokenByData(p: Pc): Pc { if p.DataAsleep? then DataStart(p.off) else p }

  function WokenByCommit(p: Pc): Pc { if p.CommitAsleep? then CommitStart else p }

  function NotifyData(threads: seq<Pc>): seq<Pc> {
    seq(|threads|, i requires 0 <= i < |threads| => WokenByData(threads[i]))
  }

  function NotifyCommit(threads: seq<Pc>): seq<Pc> {
    seq(|threads|, i requires 0 <= i < |threads| => WokenByCommit(threads[i]))
  }

  /** The next action of the thread itself, given the file it sees. */
  function NextPc(p: Pc, size: int, committed: bool): Pc {
    match p
    case DataStart(off) => DataCheck(off)
    case DataCheck(off) => DataRead(off)
    case DataRead(off) => DataSeen(off, size >= off)
    case DataSeen(off, enough) => if enough || committed then Done else DataAsleep(off)
    case CommitStart => CommitCheck
    case CommitCheck => if committed then Done else CommitAsleep
    case InsertStart(a, b) => InsertLocked(a, b)
    case InsertLocked(a, b) => InsertChanged
    case InsertChanged => InsertPending
    case InsertPending => InsertNotify
    case InsertNotify => InsertNotified
    case SetStart(v) => SetCheck(v)
    case SetCheck(v) => if committed != v && v then SetNotifyCommit else SetRelease
    case SetNotifyCommit => SetNotifyData
    case SetNotifyData => SetRelease
    case QueryStart => QueryRead
    case GrowStart => GrowLocked
    case GrowLocked => GrowRead
    case GrowRead => GrowCopy
    case UseStart => Using
    case _ => if Resting(p) then p else Done
  }

  function Step(s: State, t: nat): State
    requires t < |s.threads|
  {
    var p := s.threads[t];
    var woken := if p.InsertNotify? || p.SetNotifyData? then NotifyData(s.threads)
                 else if p.SetNotifyCommit? then NotifyCommit(s.threads)
                 else s.threads;
    State(if p.InsertLocked? then Insert(s.sectors, p.a, p.b) else s.sectors,
          if p.SetCheck? then p.value else s.committed,
          woken[t := NextPc(p, FileSize(s.sectors), s.committed)])
  }

  predicate CanHappen(s: State, e: Event) {
    match e
    case Run(t) => Enabled(s, t)
    case SpuriousWakeUp(t) => t < |s.threads| && (s.threads[t].DataAsleep? || s.threads[t].CommitAsleep?)
  }

  function After(s: State, e: Event): State
    requires CanHappen(s, e)
  {
    match e
    case Run(t) => Step(s, t)
    case SpuriousWakeUp(t) => s.(threads := s.threads[t := WokenByData(WokenByCommit(s.threads[t]))])
  }

  predicate IsRun(s: State, run: seq<Event>)
    decreases |run|
  {
    run == [] || (CanHappen(s, run[0]) && IsRun(After(s, run[0]), run[1..]))
  }

  function Final(s: State, run: seq<Event>): State
    requires IsRun(s, run)
    decreases |run|
  {
    if run == [] then s else Final(After(s, run[0]), run[1..])
  }

  /** A file in any state, and any number of threads about to make any of the calls. */
  ghost predicate Initial(s: State) {
    Ordered(s.sectors)
    && forall i :: 0 <= i < |s.threads| ==>
         var p := s.threads[i];
         p.DataStart? || p.CommitStart? || p.SetStart? || p.QueryStart? || p.GrowStart? || p.UseStart?
         || (p.InsertStart? && 0 <= p.a <= p.b)
  }

  // ---------------------------------------------------------------------------
  // Invariant
  // ---------------------------------------------------------------------------

  /** Has made data visible and not notified yet. */
  predicate OwesData(p: Pc) { p.InsertChanged? || p.InsertPending? || p.InsertNotify? }

  ghost predicate SomeoneOwesData(s: State) {
    exists w :: 0 <= w < |s.threads| && OwesData(s.threads[w])
  }

  /** Has set the flag and not notified the threads that wait for data yet. */
  ghost predicate SomeoneOwesDataOfCommit(s: State) {
    exists w :: 0 <= w < |s.threads| && (s.threads[w].SetNotifyCommit? || s.threads[w].SetNotifyData?)
  }

  ghost predicate SomeoneOwesCommit(s: State) {
    exists w :: 0 <= w < |s.threads| && s.threads[w].SetNotifyCommit?
  }

  ghost predicate MutualExclusion(s: State) {
    forall i, j | 0 <= i < |s.threads| && 0 <= j < |s.threads| && i != j ::
      && !(HoldsMutex(s.threads[i]) && HoldsMutex(s.threads[j]))
      && !(HoldsExclusive(s.threads[i]) && (HoldsExclusive(s.threads[j]) || HoldsShared(s.threads[j])))
  }

  ghost predicate WellFormed(s: State) {
    Ordered(s.sectors)
    && forall i :: 0 <= i < |s.threads| ==>
         (s.threads[i].InsertStart? || s.threads[i].InsertLocked? ==> 0 <= s.threads[i].a <= s.threads[i].b)
  }

  /** The test a waiter made is still good, or someone who changed its outcome will notify. */
  ghost predicate Promises(s: State, p: Pc) {
    && (p.DataSeen? && p.enough ==> FileSize(s.sectors) >= p.off)
    && ((p.DataSeen? && !p.enough) || p.DataAsleep? ==> FileSize(s.sectors) >= p.off ==> SomeoneOwesData(s))
    && (p.DataAsleep? && s.committed ==> SomeoneOwesDataOfCommit(s))
    && (p.CommitAsleep? && s.committed ==> SomeoneOwesCommit(s))
  }

  ghost predicate Inv(s: State) {
    WellFormed(s) && MutualExclusion(s) && forall i :: 0 <= i < |s.threads| ==> Promises(s, s.threads[i])
  }

  /** How a step changes the other threads: it leaves them alone or wakes sleepers. */
  lemma OthersAfterStep(s: State, t: nat, i: nat)
    requires t < |s.threads| && i < |s.threads| && i != t
    ensures |Step(s, t).threads| == |s.threads|
    ensures var p, q := s.threads[i], Step(s, t).threads[i];
            q == p || (p.DataAsleep? && q == DataStart(p.off)) || (p.CommitAsleep? && q == CommitStart)
    ensures s.threads[t].InsertNotify? || s.threads[t].SetNotifyData? ==> !Step(s, t).threads[i].DataAsleep?
    ensures s.threads[t].SetNotifyCommit? ==> !Step(s, t).threads[i].CommitAsleep?
  {
  }

  lemma StepKeepsWellFormed(s: State, t: nat)
    requires WellFormed(s) && Enabled(s, t)
    ensures WellFormed(Step(s, t))
    ensures FileSize(Step(s, t).sectors) >= FileSize(s.sectors)
    ensures Step(s, t).sectors != s.sectors ==> s.threads[t].InsertLocked?
  {
    var p := s.threads[t];
    if p.InsertLocked? {
      InsertOrdered(s.sectors, p.a, p.b);
      InsertFileSize(s.sectors, p.a, p.b);
    }
    forall i | 0 <= i < |s.threads| && i != t
      ensures var q := Step(s, t).threads[i]; q.InsertStart? || q.InsertLocked? ==> q == s.threads[i]
    {
      OthersAfterStep(s, t, i);
    }
  }

  lemma StepKeepsExclusion(s: State, t: nat)
    requires MutualExclusion(s) && Enabled(s, t)
    ensures MutualExclusion(Step(s, t))
  {
    var s' := Step(s, t);
    forall i | 0 <= i < |s.threads| && i != t
      ensures HoldsMutex(s'.threads[i]) == HoldsMutex(s.threads[i])
      ensures HoldsExclusive(s'.threads[i]) == HoldsExclusive(s.threads[i])
      ensures HoldsShared(s'.threads[i]) == HoldsShared(s.threads[i])
    {
      OthersAfterStep(s, t, i);
    }
    var p, q := s.threads[t], s'.threads[t];
    assert HoldsMutex(q) ==> HoldsMutex(p) || WantsMutex(p);
    assert HoldsExclusive(q) ==> HoldsExclusive(p) || p.InsertStart?;
    assert HoldsShared(q) ==> HoldsShared(p) || WantsShared(p);
  }

  /** Whoever owed a notification before the step still owes it, unless it is the notifier. */
  lemma DebtsAfterStep(s: State, t: nat)
    requires Inv(s) && Enabled(s, t)
    ensures SomeoneOwesData(s) && !s.threads[t].InsertNotify? ==> SomeoneOwesData(Step(s, t))
    ensures s.threads[t].InsertLocked? ==> SomeoneOwesData(Step(s, t))
    ensures SomeoneOwesDataOfCommit(s) && !s.threads[t].SetNotifyData? ==> SomeoneOwesDataOfCommit(Step(s, t))
    ensures SomeoneOwesCommit(s) && !s.threads[t].SetNotifyCommit? ==> SomeoneOwesCommit(Step(s, t))
    ensures Step(s, t).committed && !s.committed ==>
              SomeoneOwesCommit(Step(s, t)) && SomeoneOwesDataOfCommit(Step(s, t))
  {
    var s' := Step(s, t);
    assert s'.threads[t] == NextPc(s.threads[t], FileSize(s.sectors), s.committed);
    if SomeoneOwesData(s) {
      var w :| 0 <= w < |s.threads| && OwesData(s.threads[w]);
      if w != t { OthersAfterStep(s, t, w); assert OwesData(s'.threads[w]); }
      else if !s.threads[t].InsertNotify? { assert OwesData(s'.threads[t]); }
    }
    if s.threads[t].InsertLocked? { assert OwesData(s'.threads[t]); }
    if SomeoneOwesDataOfCommit(s) {
      var w :| 0 <= w < |s.threads| && (s.threads[w].SetNotifyCommit? || s.threads[w].SetNotifyData?);
      if w != t { OthersAfterStep(s, t, w); assert s'.threads[w] == s.threads[w]; }
      else if !s.threads[t].SetNotifyData? { assert s'.threads[t].SetNotifyData?; }
    }
    if SomeoneOwesCommit(s) {
      var w :| 0 <= w < |s.threads| && s.threads[w].SetNotifyCommit?;
      if w != t { OthersAfterStep(s, t, w); assert s'.threads[w] == s.threads[w]; }
    }
    if s'.committed && !s.committed { assert s'.threads[t].SetNotifyCommit?; }
  }

  lemma StepKeepsPromise(s: State, t: nat, i: nat)
    requires Inv(s) && Enabled(s, t) && i < |s.threads|
    ensures Promises(Step(s, t), Step(s, t).threads[i])
  {
    hide WellFormed, Insert, FileSize, SomeoneOwesData, SomeoneOwesDataOfCommit, SomeoneOwesCommit;
    StepKeepsWellFormed(s, t);
    DebtsAfterStep(s, t);
    assert Promises(s, s.threads[i]) && Promises(s, s.threads[t]);
    if i != t {
      OthersAfterStep(s, t, i);
      // a waiter between its test and its sleep holds _mutex, so no notifier is at its notification
      assert HoldsMutex(s.threads[i]) ==> !HoldsMutex(s.threads[t]);
    }
  }

  lemma StepKeepsInv(s: State, t: nat)
    requires Inv(s) && Enabled(s, t)
    ensures Inv(Step(s, t))
  {
    StepKeepsWellFormed(s, t);
    StepKeepsExclusion(s, t);
    forall i | 0 <= i < |s.threads| ensures Promises(Step(s, t), Step(s, t).threads[i]) {
      StepKeepsPromise(s, t, i);
    }
    assert |Step(s, t).threads| == |s.threads|;
  }

  lemma SpuriousKeepsInv(s: State, t: nat)
    requires Inv(s) && CanHappen(s, SpuriousWakeUp(t))
    ensures Inv(After(s, SpuriousWakeUp(t)))
  {
    var s' := After(s, SpuriousWakeUp(t));
    assert forall i :: 0 <= i < |s.threads| && i != t ==> s'.threads[i] == s.threads[i];
    forall i | 0 <= i < |s.threads| ensures Promises(s', s'.threads[i]) {
      if i != t {
        assert Promises(s, s.threads[i]);
        SameDebts(s, s', t);
      }
    }
  }

  lemma SameDebts(s: State, s': State, t: nat)
    requires t < |s.threads| == |s'.threads| && Resting(s.threads[t])
    requires forall i :: 0 <= i < |s.threads| && i != t ==> s'.threads[i] == s.threads[i]
    ensures SomeoneOwesData(s) ==> SomeoneOwesData(s')
    ensures SomeoneOwesDataOfCommit(s) ==> SomeoneOwesDataOfCommit(s')
    ensures SomeoneOwesCommit(s) ==> SomeoneOwesCommit(s')
  {
    if SomeoneOwesData(s) {
      var w :| 0 <= w < |s.threads| && OwesData(s.threads[w]);
      assert OwesData(s'.threads[w]);
    }
    if SomeoneOwesDataOfCommit(s) {
      var w :| 0 <= w < |s.threads| && (s.threads[w].SetNotifyCommit? || s.threads[w].SetNotifyData?);
      assert s'.threads[w] == s.threads[w];
    }
    if SomeoneOwesCommit(s) {
      var w :| 0 <= w < |s.threads| && s.threads[w].SetNotifyCommit?;
      assert s'.threads[w] == s.threads[w];
    }
  }

  /** The invariant holds after every run, with any interleaving and spurious wake-ups. */
  lemma {:induction false} RunKeepsInv(s: State, run: seq<Event>)
    requires Inv(s) && IsRun(s, run)
    ensures Inv(Final(s, run))
    decreases |run|
  {
    if run != [] {
      match run[0] {
        case Run(t) => StepKeepsInv(s, t);
        case SpuriousWakeUp(t) => SpuriousKeepsInv(s, t);
      }
      RunKeepsInv(After(s, run[0]), run[1..]);
    }
  }

  lemma InitialInv(s: State)
    requires Initial(s)
    ensures Inv(s)
  {
  }

  lemma ReachableInv(s: State, run: seq<Event>)
    requires Initial(s) && IsRun(s, run)
    ensures Inv(Final(s, run))
  {
    hide IsRun, Final, Inv, Initial;
    InitialInv(s);
    RunKeepsInv(s, run);
  }

  // ---------------------------------------------------------------------------
  // Calls take effect, one at a time
  // ---------------------------------------------------------------------------

  /** The file the calls change. */
  datatype File = File(sectors: seq<Sector>, committed: bool)

  function FileOf(s: State): File { File(s.sectors, s.committed) }

  /** What a call does to the file when it runs alone. */
  function Apply(f: File, call: Pc): File {
    match call
    case InsertStart(a, b) => f.(sectors := Insert(f.sectors, a, b))
    case SetStart(v) => f.(committed := v)
    case _ => f
  }

  /** What the calls do when they run alone, one after the other. */
  function ApplyAll(f: File, calls: seq<Pc>): File {
    if calls == [] then f else Apply(ApplyAll(f, calls[..|calls| - 1]), calls[|calls| - 1])
  }

  /** Point `p` belongs to the call that starts at `o`. */
  predicate Follows(o: Pc, p: Pc) {
    p.Done? || match o
               case DataStart(off) =>
                 (p.DataStart? || p.DataCheck? || p.DataRead? || p.DataSeen? || p.DataAsleep?) && p.off == off
               case CommitStart => p.CommitStart? || p.CommitCheck? || p.CommitAsleep?
               case InsertStart(a, b) =>
                 p == o || p == InsertLocked(a, b)
                 || p.InsertChanged? || p.InsertPending? || p.InsertNotify? || p.InsertNotified?
               case SetStart(v) =>
                 p == o || p == SetCheck(v) || p.SetNotifyCommit? || p.SetNotifyData? || p.SetRelease?
               case QueryStart => p.QueryStart? || p.QueryRead?
               case GrowStart => p.GrowStart? || p.GrowLocked? || p.GrowRead? || p.GrowCopy?
               case UseStart => p.UseStart? || p.Using?
               case _ => false
  }

  /** The call that started at `o` is past the point where it changes the file. */
  predicate TookEffect(o: Pc, p: Pc) {
    (o.InsertStart? && !p.InsertStart? && !p.InsertLocked?) || (o.SetStart? && !p.SetStart? && !p.SetCheck?)
  }

  predicate Distinct(order: seq<nat>) {
    forall i, j :: 0 <= i < j < |order| ==> order[i] != order[j]
  }

  function Calls(threads: seq<Pc>, order: seq<nat>): seq<Pc>
    requires forall k :: 0 <= k < |order| ==> order[k] < |threads|
  {
    seq(|order|, k requires 0 <= k < |order| => threads[order[k]])
  }

  /** `order` lists once each thread whose call took effect. */
  ghost predicate Listed(from: seq<Pc>, now: seq<Pc>, order: seq<nat>) {
    && |now| == |from|
    && Distinct(order)
    && (forall k :: 0 <= k < |order| ==> order[k] < |now|)
    && (forall i: nat :: i < |now| ==> (i in order <==> TookEffect(from[i], now[i])))
  }

  ghost predicate AllFollow(from: seq<Pc>, now: seq<Pc>) {
    |now| == |from| && forall i: nat :: i < |now| ==> Follows(from[i], now[i])
  }

  /** The file is what the calls that took effect give in that order. */
  ghost predicate InOrder(s0: State, s: State, order: seq<nat>) {
    && AllFollow(s0.threads, s.threads)
    && Listed(s0.threads, s.threads, order)
    && FileOf(s) == ApplyAll(FileOf(s0), Calls(s0.threads, order))
  }

  lemma NextFollows(o: Pc, p: Pc, size: int, committed: bool)
    requires Follows(o, p)
    ensures Follows(o, NextPc(p, size, committed))
    ensures TookEffect(o, NextPc(p, size, committed)) <==> TookEffect(o, p) || p.InsertLocked? || p.SetCheck?
    ensures p.InsertLocked? ==> o == InsertStart(p.a, p.b)
    ensures p.SetCheck? ==> o == SetStart(p.value)
  {
  }

  lemma ThreadsAfterStep(from: seq<Pc>, s: State, t: nat, i: nat)
    requires AllFollow(from, s.threads) && t < |s.threads| && i < |s.threads|
    ensures |Step(s, t).threads| == |s.threads|
    ensures Follows(from[i], Step(s, t).threads[i])
    ensures TookEffect(from[i], Step(s, t).threads[i]) <==>
            TookEffect(from[i], s.threads[i]) || (i == t && (s.threads[t].InsertLocked? || s.threads[t].SetCheck?))
  {
    hide Insert, FileSize;
    assert Follows(from[i], s.threads[i]);
    if i == t {
      NextFollows(from[t], s.threads[t], FileSize(s.sectors), s.committed);
    } else {
      OthersAfterStep(s, t, i);
    }
  }

  /** A step that changes the file adds its thread to the order; every other step leaves it. */
  function OrderAfter(order: seq<nat>, p: Pc, t: nat): seq<nat> {
    if p.InsertLocked? || p.SetCheck? then order + [t] else order
  }

  lemma StepKeepsList(from: seq<Pc>, s: State, order: seq<nat>, t: nat)
    requires AllFollow(from, s.threads) && Listed(from, s.threads, order) && t < |s.threads|
    ensures AllFollow(from, Step(s, t).threads)
    ensures Listed(from, Step(s, t).threads, OrderAfter(order, s.threads[t], t))
  {
    hide Step, Follows, TookEffect;
    var now, p, longer := Step(s, t).threads, s.threads[t], OrderAfter(order, s.threads[t], t);
    var changes := p.InsertLocked? || p.SetCheck?;
    ThreadsAfterStep(from, s, t, t);
    forall i: nat | i < |now|
      ensures Follows(from[i], now[i])
      ensures i in longer <==> TookEffect(from[i], now[i])
    {
      ThreadsAfterStep(from, s, t, i);
      assert i in longer <==> i in order || (changes && i == t);
    }
    if changes {
      NotYet(from[t], p);
    }
  }

  lemma StepChangesFile(from: seq<Pc>, s: State, t: nat)
    requires AllFollow(from, s.threads) && t < |s.threads|
    ensures FileOf(Step(s, t)) == if s.threads[t].InsertLocked? || s.threads[t].SetCheck?
                                  then Apply(FileOf(s), from[t]) else FileOf(s)
  {
    hide Insert, FileSize, NextPc;
    assert Follows(from[t], s.threads[t]);
  }

  lemma StepKeepsOrder(s0: State, s: State, order: seq<nat>, t: nat)
    requires InOrder(s0, s, order) && t < |s.threads|
    ensures InOrder(s0, Step(s, t), OrderAfter(order, s.threads[t], t))
  {
    hide Step, Apply, AllFollow;
    StepKeepsList(s0.threads, s, order, t);
    StepChangesFile(s0.threads, s, t);
    var calls := Calls(s0.threads, OrderAfter(order, s.threads[t], t));
    if s.threads[t].InsertLocked? || s.threads[t].SetCheck? {
      assert calls[..|order|] == Calls(s0.threads, order) && calls[|order|] == s0.threads[t];
    }
  }

  lemma NotYet(o: Pc, p: Pc)
    requires Follows(o, p) && (p.InsertLocked? || p.SetCheck?)
    ensures !TookEffect(o, p)
  {
  }

  lemma SpuriousKeepsOrder(s0: State, s: State, order: seq<nat>, t: nat)
    requires InOrder(s0, s, order) && CanHappen(s, SpuriousWakeUp(t))
    ensures InOrder(s0, After(s, SpuriousWakeUp(t)), order)
  {
    var s' := After(s, SpuriousWakeUp(t));
    assert forall i :: 0 <= i < |s.threads| && i != t ==> s'.threads[i] == s.threads[i];
  }

  lemma {:induction false} RunKeepsOrder(s0: State, s: State, order: seq<nat>, run: seq<Event>)
    returns (longer: seq<nat>)
    requires InOrder(s0, s, order) && IsRun(s, run)
    ensures InOrder(s0, Final(s, run), longer)
    decreases |run|
  {
    hide InOrder, Step;
    longer := order;
    if run != [] {
      match run[0] {
        case Run(t) =>
          StepKeepsOrder(s0, s, order, t);
          longer := OrderAfter(order, s.threads[t], t);
        case SpuriousWakeUp(t) => SpuriousKeepsOrder(s0, s, order, t);
      }
      longer := RunKeepsOrder(s0, After(s, run[0]), longer, run[1..]);
    }
  }

  /**
   Insertions and commits are atomic: after every run, the file is what the calls that took effect
   give when they run alone, one after the other in some order, each of them once.
   */
  lemma CallsTakeEffectInOrder(s: State, run: seq<Event>) returns (order: seq<nat>)
    requires Initial(s) && IsRun(s, run)
    ensures InOrder(s, Final(s, run), order)
  {
    assert forall i :: 0 <= i < |s.threads| ==>
      Follows(s.threads[i], s.threads[i]) && !TookEffect(s.threads[i], s.threads[i]);
    order := RunKeepsOrder(s, s, [], run);
  }

  ghost predicate CallOk(p: Pc) { p.InsertStart? ==> 0 <= p.a <= p.b }

  /** Calls after one another keep the sectors in order, every covered byte and the size. */
  lemma {:induction false} CallsKeep(f: File, calls: seq<Pc>)
    requires Ordered(f.sectors) && forall k :: 0 <= k < |calls| ==> CallOk(calls[k])
    ensures Ordered(ApplyAll(f, calls).sectors)
    ensures FileSize(ApplyAll(f, calls).sectors) >= FileSize(f.sectors)
    decreases |calls|
  {
    if calls != [] {
      hide Insert, Ordered, FileSize;
      var n := |calls| - 1;
      CallsKeep(f, calls[..n]);
      assert CallOk(calls[n]);
      if calls[n].InsertStart? {
        var sectors := ApplyAll(f, calls[..n]).sectors;
        InsertOrdered(sectors, calls[n].a, calls[n].b);
        InsertGrows(sectors, calls[n].a, calls[n].b);
      }
    }
  }

  lemma InsertGrows(s: seq<Sector>, a: int, b: int)
    requires Ordered(s) && 0 <= a <= b
    ensures FileSize(Insert(s, a, b)) >= Max(FileSize(s), b)
  {
    hide Insert;
    InsertFileSize(s, a, b);
  }

  /** The bytes of an insertion that ran are covered, and the size reaches its end. */
  ghost predicate Inserted(s: seq<Sector>, a: int, b: int) {
    FileSize(s) >= b && forall x :: a <= x < b ==> Covers(s, x)
  }

  lemma {:induction false} CallShows(f: File, calls: seq<Pc>, k: nat)
    requires Ordered(f.sectors) && forall i :: 0 <= i < |calls| ==> CallOk(calls[i])
    requires k < |calls| && calls[k].InsertStart?
    ensures Inserted(ApplyAll(f, calls).sectors, calls[k].a, calls[k].b)
    decreases |calls|
  {
    hide Insert, Ordered, FileSize;
    var n := |calls| - 1;
    var sectors := ApplyAll(f, calls[..n]).sectors;
    CallsKeep(f, calls[..n]);
    assert CallOk(calls[n]);
    if calls[n].InsertStart? {
      InsertGrows(sectors, calls[n].a, calls[n].b);
      InsertKeeps(sectors, calls[n].a, calls[n].b);
    }
    if k < n {
      CallShows(f, calls[..n], k);
    }
  }

  /** The flag is the value of the last call that sets it. */
  lemma {:induction false} CallsSetFlag(f: File, calls: seq<Pc>)
    requires SetStart(false) !in calls
    ensures ApplyAll(f, calls).committed <==> f.committed || SetStart(true) in calls
    decreases |calls|
  {
    if calls != [] {
      var n := |calls| - 1;
      assert calls == calls[..n] + [calls[n]];
      CallsSetFlag(f, calls[..n]);
    }
  }

  /** Once an insertion is past its change, its bytes are covered and the size reaches its end, for good. */
  lemma InsertIsVisible(s: State, run: seq<Event>, t: nat)
    requires Initial(s) && IsRun(s, run) && t < |s.threads| && s.threads[t].InsertStart?
    ensures |Final(s, run).threads| == |s.threads|
    ensures var f := Final(s, run);
            TookEffect(s.threads[t], f.threads[t]) ==> Inserted(f.sectors, s.threads[t].a, s.threads[t].b)
  {
    hide IsRun, Final, ApplyAll, Inserted;
    var order := CallsTakeEffectInOrder(s, run);
    var f := Final(s, run);
    if TookEffect(s.threads[t], f.threads[t]) {
      assert t in order;
      var k :| 0 <= k < |order| && order[k] == t;
      CallShows(FileOf(s), Calls(s.threads, order), k);
    }
  }

  /** No call takes the commit back. */
  predicate NoReset(s: State) { SetStart(false) !in s.threads }

  /**
   While no call takes the commit back, the file is committed exactly when it was from the start or
   a call that commits it is past its change.
   */
  lemma CommitIsVisible(s: State, run: seq<Event>)
    requires Initial(s) && IsRun(s, run) && NoReset(s)
    ensures |Final(s, run).threads| == |s.threads|
    ensures var f := Final(s, run);
            f.committed <==>
            s.committed || exists t :: 0 <= t < |s.threads| && s.threads[t] == SetStart(true)
                                       && TookEffect(s.threads[t], f.threads[t])
  {
    hide IsRun, Final, ApplyAll, Follows, TookEffect;
    var order := CallsTakeEffectInOrder(s, run);
    var f := Final(s, run);
    var calls := Calls(s.threads, order);
    CallsSetFlag(FileOf(s), calls);
    if SetStart(true) in calls {
      var k :| 0 <= k < |calls| && calls[k] == SetStart(true);
      assert order[k] in order && s.threads[order[k]] == SetStart(true);
    }
    forall t | 0 <= t < |s.threads| && s.threads[t] == SetStart(true) && TookEffect(s.threads[t], f.threads[t])
      ensures SetStart(true) in calls
    {
      assert t in order;
      var k :| 0 <= k < |order| && order[k] == t;
      assert calls[k] == SetStart(true);
    }
  }

  // ---------------------------------------------------------------------------
  // Main results
  // ---------------------------------------------------------------------------

  /**
   No lost wake-up: in every state of every run, a sleeping waiter whose condition holds has a
   notifier that has changed the state and has not notified yet.
   */
  lemma NoLostWakeUp(s: State, run: seq<Event>, t: nat)
    requires Initial(s) && IsRun(s, run) && t < |Final(s, run).threads|
    ensures var f := Final(s, run);
            && (f.threads[t].DataAsleep? && FileSize(f.sectors) >= f.threads[t].off ==> SomeoneOwesData(f))
            && (f.threads[t].DataAsleep? && f.committed ==> SomeoneOwesDataOfCommit(f))
            && (f.threads[t].CommitAsleep? && f.committed ==> SomeoneOwesCommit(f))
  {
    hide IsRun, Final, Initial, WellFormed, MutualExclusion, FileSize;
    ReachableInv(s, run);
    assert Promises(Final(s, run), Final(s, run).threads[t]);
  }

  /** A waiter, named by the call it made, returns only in a state where its condition holds. */
  lemma ReturnsOnlyWhenReady(s: State, run: seq<Event>, t: nat)
    requires Initial(s) && IsRun(s, run) && Enabled(Final(s, run), t)
    requires Step(Final(s, run), t).threads[t].Done?
    ensures |Final(s, run).threads| == |s.threads|
    ensures var f := Final(s, run);
            && (s.threads[t].DataStart? ==> FileSize(f.sectors) >= s.threads[t].off || f.committed)
            && (s.threads[t].CommitStart? ==> f.committed)
  {
    hide IsRun, Final, Initial, WellFormed, MutualExclusion, FileSize, ApplyAll;
    ReachableInv(s, run);
    var order := CallsTakeEffectInOrder(s, run);
    assert Follows(s.threads[t], Final(s, run).threads[t]);
    assert Promises(Final(s, run), Final(s, run).threads[t]);
  }

  /** When no thread can step, every thread has returned or sleeps with its condition false. */
  lemma StuckMeansServed(s: State, run: seq<Event>)
    requires Initial(s) && IsRun(s, run)
    requires forall t: nat :: !Enabled(Final(s, run), t)
    ensures var f := Final(s, run);
            forall t :: 0 <= t < |f.threads| ==>
              || f.threads[t].Done?
              || (f.threads[t].DataAsleep? && FileSize(f.sectors) < f.threads[t].off && !f.committed)
              || (f.threads[t].CommitAsleep? && !f.committed)
  {
    hide IsRun, Final, Initial, WellFormed, MutualExclusion, FileSize, Enabled;
    ReachableInv(s, run);
    var f := Final(s, run);
    StuckMeansResting(f);
    forall t | 0 <= t < |f.threads|
      ensures f.threads[t].DataAsleep? ==> FileSize(f.sectors) < f.threads[t].off && !f.committed
      ensures f.threads[t].CommitAsleep? ==> !f.committed
    {
      assert Promises(f, f.threads[t]);
    }
  }

  /** The two locks cannot deadlock: the order in which threads take them leaves one free to step. */
  lemma StuckMeansResting(s: State)
    requires forall t: nat :: !Enabled(s, t)
    ensures forall t :: 0 <= t < |s.threads| ==> Resting(s.threads[t])
  {
    assert NoExclusive(s) by {
      forall i | 0 <= i < |s.threads| ensures !HoldsExclusive(s.threads[i]) { assert !Enabled(s, i); }
    }
    assert NoShared(s) by {
      forall i | 0 <= i < |s.threads| ensures !HoldsShared(s.threads[i]) { assert !Enabled(s, i); }
    }
    assert MutexFree(s) by {
      forall i | 0 <= i < |s.threads| ensures !HoldsMutex(s.threads[i]) { assert !Enabled(s, i); }
    }
    forall i | 0 <= i < |s.threads| ensures Resting(s.threads[i]) { assert !Enabled(s, i); }
  }

  /** A call that changes the file is never left asleep: in a stuck state it has returned. */
  lemma StuckWriterIsDone(s: State, run: seq<Event>, t: nat)
    requires Initial(s) && IsRun(s, run) && t < |s.threads|
    requires forall i: nat :: !Enabled(Final(s, run), i)
    requires s.threads[t].InsertStart? || s.threads[t].SetStart?
    ensures |Final(s, run).threads| == |s.threads|
    ensures Final(s, run).threads[t].Done? && TookEffect(s.threads[t], Final(s, run).threads[t])
  {
    hide IsRun, Final, Initial, Enabled, ApplyAll;
    var order := CallsTakeEffectInOrder(s, run);
    StuckMeansResting(Final(s, run));
    assert Follows(s.threads[t], Final(s, run).threads[t]) && Resting(Final(s, run).threads[t]);
  }

  /** When the file is committed and no call takes that back, no call is left waiting. */
  lemma StuckAfterCommit(s: State, run: seq<Event>)
    requires Initial(s) && IsRun(s, run) && NoReset(s)
    requires forall t: nat :: !Enabled(Final(s, run), t)
    requires s.committed || SetStart(true) in s.threads
    ensures Final(s, run).committed
    ensures forall t :: 0 <= t < |Final(s, run).threads| ==> Final(s, run).threads[t].Done?
  {
    hide IsRun, Final, Initial, Enabled, TookEffect, FileSize;
    if SetStart(true) in s.threads {
      var t :| 0 <= t < |s.threads| && s.threads[t] == SetStart(true);
      StuckWriterIsDone(s, run, t);
    }
    CommitIsVisible(s, run);
    StuckMeansServed(s, run);
  }

  /** A reader whose last byte some call stores is not left waiting, committed or not. */
  lemma StuckAfterData(s: State, run: seq<Event>, reader: nat, writer: nat)
    requires Initial(s) && IsRun(s, run) && reader < |s.threads| && writer < |s.threads|
    requires forall t: nat :: !Enabled(Final(s, run), t)
    requires s.threads[reader].DataStart? && s.threads[writer].InsertStart?
    requires s.threads[reader].off <= s.threads[writer].b
    ensures |Final(s, run).threads| == |s.threads| && Final(s, run).threads[reader].Done?
  {
    hide IsRun, Final, Initial, Enabled, ApplyAll, TookEffect, FileSize;
    StuckWriterIsDone(s, run, writer);
    InsertIsVisible(s, run, writer);
    StuckMeansServed(s, run);
    var order := CallsTakeEffectInOrder(s, run);
    assert Follows(s.threads[reader], Final(s, run).threads[reader]);
  }

  // ---------------------------------------------------------------------------
  // Every run stops
  // ---------------------------------------------------------------------------

  /** Steps left before a waiter, a query or a growth sleeps or returns. */
  function WaiterSteps(p: Pc): nat {
    match p
    case DataStart(_) => 4
    case DataCheck(_) => 3
    case DataRead(_) => 2
    case DataSeen(_, _) => 1
    case CommitStart => 2
    case CommitCheck => 1
    case QueryStart => 2
    case QueryRead => 1
    case GrowStart => 4
    case GrowLocked => 3
    case GrowRead => 2
    case GrowCopy => 1
    case UseStart => 2
    case Using => 1
    case _ => 0
  }

  /** Steps left before an insertion or a commit returns. */
  function NotifierSteps(p: Pc): nat {
    match p
    case InsertStart(_, _) => 6
    case InsertLocked(_, _) => 5
    case InsertChanged => 4
    case InsertPending => 3
    case InsertNotify => 2
    case InsertNotified => 1
    case SetStart(_) => 5
    case SetCheck(_) => 4
    case SetNotifyCommit => 3
    case SetNotifyData => 2
    case SetRelease => 1
    case _ => 0
  }

  function Weight(p: Pc, n: nat): nat { NotifierSteps(p) * (4 * n + 1) + WaiterSteps(p) }

  function Total(threads: seq<Pc>, n: nat): nat {
    if threads == [] then 0 else Weight(threads[0], n) + Total(threads[1..], n)
  }

  lemma {:induction false} TotalUpdate(threads: seq<Pc>, t: nat, p: Pc, n: nat)
    requires t < |threads|
    ensures Total(threads[t := p], n) == Total(threads, n) - Weight(threads[t], n) + Weight(p, n)
  {
    if t == 0 {
      assert threads[t := p][1..] == threads[1..];
    } else {
      assert threads[t := p][1..] == threads[1..][t - 1 := p];
      TotalUpdate(threads[1..], t - 1, p, n);
    }
  }

  /** Waking sleepers adds at most four steps for each of them. */
  lemma {:induction false} TotalWoken(threads: seq<Pc>, woken: seq<Pc>, n: nat)
    requires |woken| == |threads|
    requires forall i :: 0 <= i < |threads| ==>
      woken[i] == threads[i] || woken[i] == WokenByData(threads[i]) || woken[i] == WokenByCommit(threads[i])
    ensures Total(woken, n) <= Total(threads, n) + 4 * |threads|
  {
    if threads != [] {
      TotalWoken(threads[1..], woken[1..], n);
    }
  }

  /** Every step of a thread brings the end of the run nearer, although notifications wake others. */
  lemma StepDecreasesTotal(s: State, t: nat)
    requires Enabled(s, t)
    ensures |Step(s, t).threads| == |s.threads|
    ensures Total(Step(s, t).threads, |s.threads|) < Total(s.threads, |s.threads|)
  {
    var n := |s.threads|;
    var p := s.threads[t];
    var q := NextPc(p, FileSize(s.sectors), s.committed);
    var woken := if p.InsertNotify? || p.SetNotifyData? then NotifyData(s.threads)
                 else if p.SetNotifyCommit? then NotifyCommit(s.threads)
                 else s.threads;
    WeightDrops(p, FileSize(s.sectors), s.committed, n);
    TotalUpdate(woken, t, q, n);
    if woken != s.threads {
      TotalWoken(s.threads, woken, n);
    }
  }

  lemma WeightDrops(p: Pc, size: int, committed: bool, n: nat)
    requires !Resting(p)
    ensures Weight(NextPc(p, size, committed), n) + 1 <= Weight(p, n)
    ensures NotifierSteps(p) > 0 ==> Weight(NextPc(p, size, committed), n) + 4 * n + 1 <= Weight(p, n)
  {
    var q := NextPc(p, size, committed);
    if NotifierSteps(p) > 0 {
      assert NotifierSteps(q) < NotifierSteps(p) && WaiterSteps(q) == 0;
      var k := 4 * n + 1;
      assert NotifierSteps(p) * k == NotifierSteps(q) * k + (NotifierSteps(p) - NotifierSteps(q)) * k;
      assert (NotifierSteps(p) - NotifierSteps(q)) * k >= k;
    } else {
      assert NotifierSteps(q) == 0 && WaiterSteps(q) < WaiterSteps(p);
    }
  }

  function SpuriousCount(run: seq<Event>): nat {
    if run == [] then 0 else (if run[0].SpuriousWakeUp? then 1 else 0) + SpuriousCount(run[1..])
  }

  /**
   Every run stops: without spurious wake-ups its length is bounded by the threads it starts
   with, and each spurious wake-up adds at most five steps.
   */
  lemma {:induction false} RunsAreBounded(s: State, run: seq<Event>)
    requires IsRun(s, run)
    ensures |run| + Total(Final(s, run).threads, |s.threads|)
            <= Total(s.threads, |s.threads|) + 5 * SpuriousCount(run)
    ensures |Final(s, run).threads| == |s.threads|
    decreases |run|
  {
    if run != [] {
      match run[0] {
        case Run(t) => StepDecreasesTotal(s, t);
        case SpuriousWakeUp(t) =>
          TotalUpdate(s.threads, t, WokenByData(WokenByCommit(s.threads[t])), |s.threads|);
      }
      RunsAreBounded(After(s, run[0]), run[1..]);
    }
  }
}
