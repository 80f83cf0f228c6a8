/**
 Reads of a file while it is being written, on the server that has it: handle_local_read samples
 the commit flag and the sectors, hands a read that it cannot serve to a thread that waits for data
 or for the commit, and handle_pending_read then looks at the sectors again. One reader; every other
 thread of the server acts in between its steps.
 */
module Streaming {
  import opened Bytes
  import opened Cells
  import opened Sectors

  /** Steps of the read that the client waits for; `at` is the offset of the descriptor when it began. */
  datatype Pc =
    | Idle
    | Begun(at: nat, count: nat)                    // samples the commit flag
    | Looking(at: nat, count: nat, complete: bool)  // looks for the sector at its offset
    | AwaitingCommit(at: nat, count: nat)
    | AwaitingData(at: nat, count: nat)
    | Woken(at: nat, count: nat)                    // looks for the sector at its offset again
    | Replying(at: nat, count: nat, n: nat, detached: bool)

  datatype Answer = Answer(offset: nat, count: nat, data: Data)

  /**
   `firable` and `producer` say whether the file may be read before its commit, and by its writer.
   `cells` are the bytes ever stored. `offset` is the offset of the descriptor at the server,
   `position` the one the client has been told or has set, and `moves` are the offsets that
   detached threads have replied with and not set yet.
   */
  datatype State = State(
    firable: bool, producer: bool,
    sectors: seq<Sector>, cells: map<int, Byte>, committed: bool,
    offset: nat, position: nat, moves: seq<nat>, pc: Pc, answers: seq<Answer>)

  datatype Event =
    | Store(at: nat, d: Data)     // a writer copies bytes into the buffer
    | Publish(at: nat, n: nat)    // and inserts the sector of bytes so copied
    | Commit
    | Seek(target: nat)           // the client, between reads
    | Read(count: nat)            // the client
    | Continue                    // the read under way
    | Reply(junk: int -> Byte)    // it replies; `junk` is what the buffer has where nothing was stored
    | Move(k: nat)                // a detached thread sets the offset it has replied with

  ghost predicate CanHappen(s: State, e: Event) {
    match e
    case Store(at, d) => true
    case Publish(at, n) => n > 0 && Within(s.cells, at, n)
    case Commit => true
    case Seek(target) => s.pc.Idle?
    case Read(count) => s.pc.Idle?
    case Continue =>
      && !s.pc.Idle? && !s.pc.Replying?
      && (s.pc.AwaitingCommit? ==> s.committed)
      && (s.pc.AwaitingData? ==> FileSize(s.sectors) >= s.pc.at + s.pc.count || s.committed)
    case Reply(junk) => s.pc.Replying?
    case Move(k) => k < |s.moves|
  }

  /** The bytes from `at` on that handle_pending_read serves. */
  function Served(sectors: seq<Sector>, at: nat, count: nat): nat {
    var e := GetSectorEnd(sectors, at);
    if e > at + count then count
    else if e == SECTOR_NOT_FOUND then 0
    else Max(0, e - at)
  }

  /** handle_local_read, from the lookup of the sector on. */
  function Look(sectors: seq<Sector>, at: nat, count: nat, complete: bool): Pc {
    var e := GetSectorEnd(sectors, at);
    if e == SECTOR_NOT_FOUND && complete then Replying(at, count, 0, false)
    else if (e == SECTOR_NOT_FOUND || at + count > e) && !complete then AwaitingData(at, count)
    else Replying(at, count, Max(0, Min(count, e - at)), false)
  }

  /** The reply: the server thread moves the offset with it, a detached thread only afterwards. */
  ghost function AfterReply(s: State, junk: int -> Byte): State
    requires s.pc.Replying?
  {
    var end := s.pc.at + s.pc.n;
    s.(pc := Idle, position := end,
       offset := if s.pc.detached then s.offset else end,
       moves := if s.pc.detached then s.moves + [end] else s.moves,
       answers := s.answers + [Answer(s.pc.at, s.pc.count, Buffer(s.cells, junk, s.pc.at, s.pc.n))])
  }

  ghost function After(s: State, e: Event): State
    requires CanHappen(s, e)
  {
    match e
    case Store(at, d) => s.(cells := Put(s.cells, at, d))
    case Publish(at, n) => s.(sectors := Insert(s.sectors, at, at + n))
    case Commit => s.(committed := true)
    case Seek(target) => s.(offset := target, position := target)
    case Read(count) => s.(pc := Begun(s.offset, count))
    case Continue =>
      (match s.pc
       case Begun(at, count) =>
         var complete := s.committed || s.producer;
         s.(pc := if complete || s.firable then Looking(at, count, complete) else AwaitingCommit(at, count))
       case Looking(at, count, complete) => s.(pc := Look(s.sectors, at, count, complete))
       case AwaitingCommit(at, count) => s.(pc := Woken(at, count))
       case AwaitingData(at, count) => s.(pc := Woken(at, count))
       case Woken(at, count) => s.(pc := Replying(at, count, Served(s.sectors, at, count), true)))
    case Reply(junk) => AfterReply(s, junk)
    case Move(k) => s.(offset := s.moves[k], moves := s.moves[..k] + s.moves[k + 1..])
  }

  // ---------------------------------------------------------------------------
  // Any file and any writes: answers lie in sectors, and wait for what they must
  // ---------------------------------------------------------------------------

  ghost predicate Available(s: State, at: nat, n: nat) {
    forall x :: at <= x < at + n ==> Covers(s.sectors, x)
  }

  /** What allows a read of `count` bytes at `at` to be served. */
  ghost predicate Ready(s: State, at: nat, count: nat) {
    s.committed || s.producer || (s.firable && FileSize(s.sectors) >= at + count)
  }

  ghost predicate PcSound(s: State) {
    match s.pc
    case Looking(at, count, complete) => if complete then s.committed || s.producer else s.firable && !s.producer
    case AwaitingCommit(at, count) => !s.producer
    case AwaitingData(at, count) => s.firable && !s.producer
    case Woken(at, count) => Ready(s, at, count)
    case Replying(at, count, n, _) => n <= count && Available(s, at, n) && Ready(s, at, count)
    case _ => true
  }

  ghost predicate AnswerSound(s: State, a: Answer) {
    |a.data| <= a.count && Available(s, a.offset, |a.data|) && Ready(s, a.offset, a.count)
  }

  /** Every byte answered is in a sector, and the read was ready when it was answered. */
  ghost predicate AnswersSound(s: State) {
    forall i :: 0 <= i < |s.answers| ==> AnswerSound(s, s.answers[i])
  }

  ghost predicate Inv(s: State) {
    Stored(s.sectors) && PcSound(s) && AnswersSound(s)
  }

  lemma ServedIsAvailable(s: State, at: nat, count: nat)
    requires Stored(s.sectors)
    ensures var n := Served(s.sectors, at, count); n <= count && Available(s, at, n)
  {
    SectorEndCovers(s.sectors, at);
  }

  lemma LookIsSound(s: State)
    requires Inv(s) && s.pc.Looking?
    ensures PcSound(After(s, Continue))
  {
    hide Covers, Ordered, NonEmpty, GetSectorEnd;
    SectorEndCovers(s.sectors, s.pc.at);
  }

  /** Sectors only grow, and so does what is ready. */
  ghost predicate Grows(s: State, t: State) {
    && s.firable == t.firable && s.producer == t.producer && (s.committed ==> t.committed)
    && FileSize(s.sectors) <= FileSize(t.sectors)
    && (forall x :: Covers(s.sectors, x) ==> Covers(t.sectors, x))
  }

  lemma GrowthKeepsAnswers(s: State, t: State)
    requires AnswersSound(s) && Grows(s, t) && t.answers == s.answers
    ensures AnswersSound(t)
  {
    hide Covers, FileSize;
    forall i | 0 <= i < |t.answers| ensures AnswerSound(t, t.answers[i]) {
      assert AnswerSound(s, s.answers[i]);
    }
  }

  lemma PublishGrows(s: State, at: nat, n: nat)
    requires Inv(s) && CanHappen(s, Publish(at, n))
    ensures Grows(s, After(s, Publish(at, n))) && Stored(After(s, Publish(at, n)).sectors)
  {
    hide Covers, Insert;
    InsertKeeps(s.sectors, at, at + n);
    InsertStored(s.sectors, at, at + n);
    InsertFileSize(s.sectors, at, at + n);
  }

  lemma ReplyKeepsInv(s: State, junk: int -> Byte)
    requires Inv(s) && s.pc.Replying?
    ensures Inv(AfterReply(s, junk))
  {
    hide Covers, FileSize, Stored;
    var t := AfterReply(s, junk);
    forall i | 0 <= i < |s.answers| ensures AnswerSound(t, t.answers[i]) {
      assert AnswerSound(s, s.answers[i]);
    }
  }

  lemma StepKeepsInv(s: State, e: Event)
    requires Inv(s) && CanHappen(s, e)
    ensures Inv(After(s, e))
  {
    hide Covers, Insert, FileSize, Stored, Put, Buffer, GetSectorEnd;
    var t := After(s, e);
    if e.Reply? {
      ReplyKeepsInv(s, e.junk);
    } else {
      if e.Publish? {
        PublishGrows(s, e.at, e.n);
      } else if e.Continue? && s.pc.Looking? {
        LookIsSound(s);
      } else if e.Continue? && s.pc.Woken? {
        ServedIsAvailable(s, s.pc.at, s.pc.count);
      }
      GrowthKeepsAnswers(s, t);
    }
  }

  /** Only what its writers have not done can make a read wait. */
  lemma OnlyWritersDelay(s: State)
    requires !s.pc.Idle?
    ensures s.pc.AwaitingCommit? ==> (CanHappen(s, Continue) <==> s.committed)
    ensures s.pc.AwaitingData? ==>
              (CanHappen(s, Continue) <==> FileSize(s.sectors) >= s.pc.at + s.pc.count || s.committed)
    ensures !s.pc.AwaitingCommit? && !s.pc.AwaitingData? ==>
              CanHappen(s, Continue) || forall junk: int -> Byte :: CanHappen(s, Reply(junk))
  {
  }

  // ---------------------------------------------------------------------------
  // Every read that can be served is answered
  // ---------------------------------------------------------------------------

  predicate OfRead(e: Event) { e.Continue? || e.Reply? }

  /** The steps a read takes at most; one that saw the file open may have to wait. */
  function StepsLeft(s: State): nat {
    match s.pc
    case Idle => 0
    case Begun(_, _) => if s.committed then 3 else 5
    case Looking(_, _, complete) => if complete then 2 else 4
    case AwaitingCommit(_, _) => 3
    case AwaitingData(_, _) => 3
    case Woken(_, _) => 2
    case Replying(_, _, _, _) => 1
  }

  function OwnSteps(run: seq<Event>): nat {
    if run == [] then 0 else (if OfRead(run[0]) then 1 else 0) + OwnSteps(run[1..])
  }

  /** The file is committed, the reader is its producer, or it may be read early and reaches the end of the read. */
  ghost predicate Servable(s: State) {
    && !s.pc.Idle?
    && (|| s.committed || s.producer
        || (s.firable && !s.pc.AwaitingCommit? && FileSize(s.sectors) >= s.pc.at + s.pc.count))
  }

  ghost predicate CanGoOn(s: State) {
    CanHappen(s, Continue) || forall junk: int -> Byte :: CanHappen(s, Reply(junk))
  }

  lemma ServableCanGoOn(s: State)
    requires (s.committed || Inv(s)) && Servable(s)
    ensures CanGoOn(s)
  {
  }

  /** Each step of its own brings the answer nearer, and no other step puts it off. */
  lemma StepsDrop(s: State, e: Event)
    requires !s.pc.Idle? && CanHappen(s, e)
    ensures if OfRead(e) then StepsLeft(After(s, e)) < StepsLeft(s)
            else After(s, e).pc == s.pc && StepsLeft(After(s, e)) <= StepsLeft(s)
    ensures |After(s, e).answers| == |s.answers| + (if After(s, e).pc.Idle? then 1 else 0)
  {
    hide GetSectorEnd, Insert, Put, Buffer;
  }

  lemma StaysServable(s: State, e: Event)
    requires (s.committed || Inv(s)) && Servable(s) && CanHappen(s, e)
    ensures Servable(After(s, e)) || After(s, e).pc.Idle?
  {
    if e.Publish? && !s.committed { PublishGrows(s, e.at, e.n); }
    hide GetSectorEnd, Insert, Put, Buffer, FileSize, Inv;
  }

  lemma {:induction false} AnswersGrow(s: State, run: seq<Event>)
    requires IsRun(s, run)
    ensures |Final(s, run).answers| >= |s.answers|
    decreases |run|
  {
    if run != [] { AnswersGrow(After(s, run[0]), run[1..]); }
  }

  /**
   Over every run, a read of a file that is committed, or by its producer, or of one that may be read early
   and reaches its end, is answered, or can go on and has taken that many fewer of its at most five steps.
   */
  lemma {:induction false} ServableReadIsAnswered(s: State, run: seq<Event>)
    requires (s.committed || Inv(s)) && Servable(s) && IsRun(s, run)
    ensures var t := Final(s, run);
            || |t.answers| > |s.answers|
            || (!t.pc.Idle? && CanGoOn(t) && OwnSteps(run) + StepsLeft(t) <= StepsLeft(s) <= 5)
    decreases |run|
  {
    ServableCanGoOn(s);
    if run != [] {
      hide Inv, Servable, CanGoOn;
      var t := After(s, run[0]);
      StepsDrop(s, run[0]);
      StaysServable(s, run[0]);
      if !s.committed { StepKeepsInv(s, run[0]); }
      if t.pc.Idle? {
        AnswersGrow(t, run[1..]);
      } else {
        ServableReadIsAnswered(t, run[1..]);
      }
    }
  }

  /** So after the commit four steps of its own are enough, whatever is written then. */
  lemma AnsweredAfterCommit(s: State, run: seq<Event>)
    requires s.committed && !s.pc.Idle? && IsRun(s, run) && OwnSteps(run) >= StepsLeft(s)
    ensures StepsLeft(s) <= 4 && |Final(s, run).answers| > |s.answers|
  {
    ServableReadIsAnswered(s, run);
    var t := Final(s, run);
    assert !t.pc.Idle? ==> StepsLeft(t) > 0;
  }

  // ---------------------------------------------------------------------------
  // Files whose sectors claim no gap: answers were written
  // ---------------------------------------------------------------------------

  ghost predicate NoGap(s: State, e: Event) {
    e.Publish? ==> !ClaimsGap(s.sectors, e.at, e.at + e.n)
  }

  ghost predicate Written(s: State) {
    forall x :: Covers(s.sectors, x) ==> x in s.cells
  }

  lemma StepKeepsWritten(s: State, e: Event)
    requires Inv(s) && Written(s) && CanHappen(s, e) && NoGap(s, e)
    ensures Written(After(s, e))
  {
    hide Covers, Insert, ClaimsGap, Ordered, NonEmpty, Put, Buffer;
    if e.Publish? {
      InsertExactIff(s.sectors, e.at, e.at + e.n);
    } else if e.Store? {
      forall x | x in s.cells ensures x in After(s, e).cells { PutAt(s.cells, e.at, e.d, x); }
    }
  }

  /** A publication makes readable only what was stored iff it claims no gap, or one that was stored. */
  lemma PublishIsWrittenIff(s: State, at: nat, n: nat)
    requires Inv(s) && Written(s) && CanHappen(s, Publish(at, n))
    ensures Written(After(s, Publish(at, n)))
            <==> !ClaimsGap(s.sectors, at, at + n) || MergedEnd(s.sectors, at, at + n) in s.cells
  {
    hide Covers, Insert, ClaimsGap, Ordered, NonEmpty;
    var t := After(s, Publish(at, n));
    var m, gap := MergedEnd(s.sectors, at, at + n), ClaimsGap(s.sectors, at, at + n);
    forall x ensures Covers(t.sectors, x) <==> Covers(s.sectors, x) || at <= x < at + n || (x == m && gap) {
      InsertCovers(s.sectors, at, at + n, x);
    }
  }

  // ---------------------------------------------------------------------------
  // A file written without holes: short answers only at the end of a committed file
  // ---------------------------------------------------------------------------

  /** Writes leave no hole, and stop at the commit. */
  ghost predicate Sequential(s: State, e: Event) {
    e.Publish? ==> e.at <= FileSize(s.sectors) && !s.committed
  }

  ghost predicate Exact(s: State, at: nat, count: nat, n: nat) {
    || s.producer
    || (n == count && at + count <= FileSize(s.sectors))
    || (s.committed && n == Min(count, Max(0, FileSize(s.sectors) - at)))
  }

  ghost predicate Full(s: State) {
    && FileSize(s.sectors) >= 0 && s.sectors == GapFree(FileSize(s.sectors))
    && (s.pc.Replying? ==> Exact(s, s.pc.at, s.pc.count, s.pc.n))
    && (forall i :: 0 <= i < |s.answers| ==>
          Exact(s, s.answers[i].offset, s.answers[i].count, |s.answers[i].data|))
  }

  lemma PublishKeepsFull(s: State, e: Event)
    requires Inv(s) && Full(s) && CanHappen(s, e) && Sequential(s, e) && e.Publish?
    ensures NoGap(s, e) && Full(After(s, e))
  {
    hide Insert, Covers, GapFree, ClaimsGap, FileSize, Stored;
    var n: nat := FileSize(s.sectors);
    InsertGapFree(n, e.at, e.at + e.n);
    GapFreeCovers(n);
    GapFreeCovers(Max(n, e.at + e.n));
    GapFreeClaimsNothing(n, e.at, e.at + e.n);
  }

  lemma GapFreeClaimsNothing(n: nat, a: nat, b: nat)
    requires a < b
    ensures !ClaimsGap(GapFree(n), a, b)
  {
    MergedEndIsMax(GapFree(n), a, b);
  }

  lemma LookKeepsFull(s: State)
    requires Inv(s) && Full(s) && (s.pc.Looking? || s.pc.Woken?)
    ensures Full(After(s, Continue))
  {
    hide Covers, Stored, GetSectorEnd, GapFree;
    GapFreeSectorEnd(FileSize(s.sectors), s.pc.at);
  }

  lemma StepKeepsFull(s: State, e: Event)
    requires Inv(s) && Full(s) && CanHappen(s, e) && Sequential(s, e)
    ensures NoGap(s, e) && Full(After(s, e))
  {
    hide Covers, Insert, FileSize, ClaimsGap, Stored, Put, GetSectorEnd, GapFree;
    if e.Publish? {
      PublishKeepsFull(s, e);
    } else if e.Continue? && (s.pc.Looking? || s.pc.Woken?) {
      LookKeepsFull(s);
    }
  }

  // ---------------------------------------------------------------------------
  // The bytes of an answer
  // ---------------------------------------------------------------------------

  /** The bytes of an answer that were stored are as they were stored. */
  ghost predicate Matches(s: State, a: Answer) {
    forall k :: 0 <= k < |a.data| && a.offset + k in s.cells ==> a.data[k] == s.cells[a.offset + k]
  }

  ghost predicate AllMatch(s: State) {
    forall i :: 0 <= i < |s.answers| ==> Matches(s, s.answers[i])
  }

  /**
   An answer is the stored bytes at the offset with which the read began. A reply of the server
   thread moves the offset past them; a reply of a detached thread leaves it for later.
   */
  lemma AnswerIsContents(s: State, junk: int -> Byte)
    requires s.pc.Replying?
    ensures var t := After(s, Reply(junk));
            var a := t.answers[|s.answers|];
            && t.answers == s.answers + [a] && a.offset == s.pc.at && |a.data| == s.pc.n && Matches(t, a)
            && t.position == s.pc.at + s.pc.n
            && (if s.pc.detached then t.offset == s.offset && t.moves == s.moves + [t.position]
                else t.offset == t.position && t.moves == s.moves)
            && t.sectors == s.sectors && t.cells == s.cells && t.committed == s.committed
  {
  }

  /** No byte is stored twice with different values. */
  ghost predicate WriteOnce(s: State, e: Event) {
    e.Store? ==> forall x :: x in s.cells && e.at <= x < e.at + |e.d| ==> s.cells[x] == e.d[x - e.at]
  }

  /** Every byte of every answer was stored by a writer. */
  ghost predicate AnsweredCells(s: State) {
    forall i :: 0 <= i < |s.answers| ==> Within(s.cells, s.answers[i].offset, |s.answers[i].data|)
  }

  lemma AnswersWereWritten(s: State)
    requires AnswersSound(s) && Written(s)
    ensures AnsweredCells(s)
  {
    hide Covers, FileSize;
    forall i | 0 <= i < |s.answers| ensures Within(s.cells, s.answers[i].offset, |s.answers[i].data|) {
      assert AnswerSound(s, s.answers[i]);
    }
  }

  lemma StepKeepsMatches(s: State, e: Event)
    requires Inv(s) && Written(s) && AllMatch(s) && CanHappen(s, e) && WriteOnce(s, e)
    ensures AllMatch(After(s, e))
  {
    hide Covers, Stored, FileSize, Insert, GetSectorEnd, Put;
    var t := After(s, e);
    AnswersWereWritten(s);
    forall x | x in s.cells ensures x in t.cells && t.cells[x] == s.cells[x] {
      if e.Store? { PutAt(s.cells, e.at, e.d, x); }
    }
    forall i | 0 <= i < |t.answers| ensures Matches(t, t.answers[i]) {
      if i < |s.answers| {
        assert t.answers[i] == s.answers[i] && Matches(s, s.answers[i]);
      }
    }
  }

  // ---------------------------------------------------------------------------
  // Runs
  // ---------------------------------------------------------------------------

  ghost predicate IsRun(s: State, run: seq<Event>)
    decreases |run|
  {
    run == [] || (CanHappen(s, run[0]) && IsRun(After(s, run[0]), run[1..]))
  }

  ghost function Final(s: State, run: seq<Event>): State
    requires IsRun(s, run)
    decreases |run|
  {
    if run == [] then s else Final(After(s, run[0]), run[1..])
  }

  ghost predicate Throughout(s: State, run: seq<Event>, good: (State, Event) -> bool)
    requires IsRun(s, run)
    decreases |run|
  {
    run == [] || (good(s, run[0]) && Throughout(After(s, run[0]), run[1..], good))
  }

  ghost predicate Start(s: State) {
    s.sectors == [] && s.pc.Idle? && s.answers == [] && s.moves == [] && s.offset == s.position
  }

  lemma {:induction false} RunKeepsInv(s: State, run: seq<Event>)
    requires Inv(s) && IsRun(s, run)
    ensures Inv(Final(s, run)) && Final(s, run).firable == s.firable && Final(s, run).producer == s.producer
    decreases |run|
  {
    if run != [] {
      StepKeepsInv(s, run[0]);
      RunKeepsInv(After(s, run[0]), run[1..]);
    }
  }

  predicate Commits(run: seq<Event>) {
    exists i :: 0 <= i < |run| && run[i].Commit?
  }

  /** What a step of a writer does to the sectors and to the bytes. */
  function SectorsThen(sectors: seq<Sector>, e: Event): seq<Sector> {
    if e.Publish? then Insert(sectors, e.at, e.at + e.n) else sectors
  }

  function CellsThen(cells: map<int, Byte>, e: Event): map<int, Byte> {
    if e.Store? then Put(cells, e.at, e.d) else cells
  }

  /** The sectors, and the bytes, that the writers leave. */
  function SectorsAfter(sectors: seq<Sector>, run: seq<Event>): seq<Sector>
    decreases |run|
  {
    if run == [] then sectors else SectorsAfter(SectorsThen(sectors, run[0]), run[1..])
  }

  function CellsAfter(cells: map<int, Byte>, run: seq<Event>): map<int, Byte>
    decreases |run|
  {
    if run == [] then cells else CellsAfter(CellsThen(cells, run[0]), run[1..])
  }

  lemma StepWrites(s: State, e: Event)
    requires CanHappen(s, e)
    ensures var t := After(s, e);
            && (t.committed <==> s.committed || e.Commit?)
            && t.sectors == SectorsThen(s.sectors, e) && t.cells == CellsThen(s.cells, e)
  {
    hide Look, Served, Insert, Put, AfterReply;
    if e.Reply? { AnswerIsContents(s, e.junk); }
  }

  /** Over every run, the file is what its writers and their commit make it, and no read changes it. */
  lemma {:induction false} FileIsItsWriters(s: State, run: seq<Event>)
    requires IsRun(s, run)
    ensures var t := Final(s, run);
            && (t.committed <==> s.committed || Commits(run))
            && t.sectors == SectorsAfter(s.sectors, run) && t.cells == CellsAfter(s.cells, run)
    decreases |run|
  {
    if run != [] {
      hide CanHappen, After, SectorsThen, CellsThen, Commits;
      StepWrites(s, run[0]);
      FileIsItsWriters(After(s, run[0]), run[1..]);
      CommitsSplit(run);
    } else {
      assert !Commits(run);
    }
  }

  lemma CommitsSplit(run: seq<Event>)
    requires run != []
    ensures Commits(run) <==> run[0].Commit? || Commits(run[1..])
  {
    if Commits(run) {
      var i :| 0 <= i < |run| && run[i].Commit?;
      assert i > 0 ==> run[1..][i - 1].Commit?;
    }
    if Commits(run[1..]) {
      var i :| 0 <= i < |run[1..]| && run[1..][i].Commit?;
      assert run[i + 1].Commit?;
    }
  }

  /**
   Whatever the writes and their order: every answer lies in sectors of the file, and a reader that
   is not the producer of a file that may not be read early gets its first answer after the commit.
   */
  lemma StreamingSafety(s: State, run: seq<Event>)
    requires Start(s) && IsRun(s, run)
    ensures var t := Final(s, run);
            AnswersSound(t) && (!s.firable && !s.producer && t.answers != [] ==> t.committed)
  {
    RunKeepsInv(s, run);
    var t := Final(s, run);
    if t.answers != [] { assert AnswerSound(t, t.answers[0]); }
  }

  lemma {:induction false} RunKeepsWritten(s: State, run: seq<Event>)
    requires Inv(s) && Written(s) && IsRun(s, run) && Throughout(s, run, (t, e) => NoGap(t, e))
    ensures Inv(Final(s, run)) && Written(Final(s, run))
    decreases |run|
  {
    if run != [] {
      StepKeepsInv(s, run[0]);
      StepKeepsWritten(s, run[0]);
      RunKeepsWritten(After(s, run[0]), run[1..]);
    }
  }

  /** If no sector claims a gap, every byte ever answered was written. */
  lemma OnlyWrittenBytes(s: State, run: seq<Event>)
    requires Start(s) && IsRun(s, run) && Throughout(s, run, (t, e) => NoGap(t, e))
    ensures AnsweredCells(Final(s, run))
  {
    RunKeepsWritten(s, run);
    AnswersWereWritten(Final(s, run));
  }

  lemma {:induction false} RunKeepsFull(s: State, run: seq<Event>)
    requires Inv(s) && Full(s) && IsRun(s, run) && Throughout(s, run, (t, e) => Sequential(t, e))
    ensures Inv(Final(s, run)) && Full(Final(s, run)) && Final(s, run).producer == s.producer
    decreases |run|
  {
    if run != [] {
      StepKeepsFull(s, run[0]);
      StepKeepsInv(s, run[0]);
      RunKeepsFull(After(s, run[0]), run[1..]);
    }
  }

  /**
   A file written without holes: a reader that is not its producer gets all the bytes it asked for,
   or all there are up to the end of the committed file.
   */
  lemma SequentialStreaming(s: State, run: seq<Event>)
    requires Start(s) && !s.producer && IsRun(s, run) && Throughout(s, run, (t, e) => Sequential(t, e))
    ensures var t := Final(s, run);
            forall i :: 0 <= i < |t.answers| && |t.answers[i].data| < t.answers[i].count ==>
              t.committed && |t.answers[i].data| == Max(0, FileSize(t.sectors) - t.answers[i].offset)
  {
    RunKeepsFull(s, run);
  }

  /** No read of at least one byte is answered with the end of file before the commit. */
  lemma NoEarlyEndOfFile(s: State, run: seq<Event>, i: nat)
    requires Start(s) && !s.producer && IsRun(s, run) && Throughout(s, run, (t, e) => Sequential(t, e))
    requires var t := Final(s, run); i < |t.answers| && t.answers[i].count > 0 && t.answers[i].data == []
    ensures var t := Final(s, run); t.committed && t.answers[i].offset >= FileSize(t.sectors)
  {
    SequentialStreaming(s, run);
  }

  lemma {:induction false} RunKeepsMatches(s: State, run: seq<Event>)
    requires Inv(s) && Written(s) && AllMatch(s) && IsRun(s, run)
    requires Throughout(s, run, (t, e) => NoGap(t, e)) && Throughout(s, run, (t, e) => WriteOnce(t, e))
    ensures AllMatch(Final(s, run))
    decreases |run|
  {
    if run != [] {
      StepKeepsInv(s, run[0]);
      StepKeepsWritten(s, run[0]);
      StepKeepsMatches(s, run[0]);
      RunKeepsMatches(After(s, run[0]), run[1..]);
    }
  }

  /** If no byte is overwritten with another, every answer is bytes of the finished file. */
  lemma StreamedBytesAreFinal(s: State, run: seq<Event>)
    requires Start(s) && IsRun(s, run)
    requires Throughout(s, run, (t, e) => NoGap(t, e)) && Throughout(s, run, (t, e) => WriteOnce(t, e))
    ensures AnsweredCells(Final(s, run)) && AllMatch(Final(s, run))
  {
    OnlyWrittenBytes(s, run);
    RunKeepsMatches(s, run);
  }

  // ---------------------------------------------------------------------------
  // An answer is all that is there
  // ---------------------------------------------------------------------------

  /** A read that has just found what it will reply with has found all that is there. */
  lemma LookupIsLongestRun(s: State, e: Event)
    requires Inv(s) && CanHappen(s, e) && !s.pc.Replying? && After(s, e).pc.Replying?
    ensures !s.pc.Idle? && After(s, e).answers == s.answers
    ensures var pc := After(s, e).pc;
            pc.at == s.pc.at && pc.count == s.pc.count && LongestRun(s.sectors, pc.at, pc.count, pc.n)
  {
    hide Covers, GetSectorEnd, NonEmpty, Ordered, Insert, Put, Buffer;
    GetSectorEndIsRunEnd(s.sectors, s.pc.at);
  }

  /** A read waits for the commit, or for data, iff it may not be served before, or not all of it is there. */
  lemma ReadWaitsIff(s: State)
    requires Inv(s) && (s.pc.Begun? || s.pc.Looking?)
    ensures After(s, Continue).pc.AwaitingCommit? <==> s.pc.Begun? && !s.committed && !s.producer && !s.firable
    ensures After(s, Continue).pc.AwaitingData? <==>
            s.pc.Looking? && !s.pc.complete && Lacks(s.sectors, s.pc.at, s.pc.count)
    ensures After(s, Continue).pc.Replying? ==> !After(s, Continue).pc.detached
  {
    hide Lacks, GetSectorEnd, NonEmpty, Ordered;
    LacksIff(s.sectors, s.pc.at, s.pc.count);
  }

  /** What a read is about to reply with is what it replies with. */
  lemma {:induction false} ReplyIsAnswer(s: State, run: seq<Event>)
    requires s.pc.Replying? && IsRun(s, run) && |Final(s, run).answers| > |s.answers|
    ensures var a := Final(s, run).answers[|s.answers|];
            a.offset == s.pc.at && a.count == s.pc.count && |a.data| == s.pc.n
    decreases |run|
  {
    var t := After(s, run[0]);
    StepsDrop(s, run[0]);
    hide AfterReply, Buffer;
    if run[0].Reply? {
      AnswerIsContents(s, run[0].junk);
      AnswersStay(t, run[1..], |s.answers|);
    } else {
      SameAnswers(s, run[0]);
      ReplyIsAnswer(t, run[1..]);
    }
  }

  lemma SameAnswers(s: State, e: Event)
    requires CanHappen(s, e) && !e.Reply?
    ensures After(s, e).answers == s.answers
  {
    hide GetSectorEnd, Insert, Put;
  }

  lemma {:induction false} AnswersStay(s: State, run: seq<Event>, i: nat)
    requires IsRun(s, run) && i < |s.answers|
    ensures i < |Final(s, run).answers| && Final(s, run).answers[i] == s.answers[i]
    decreases |run|
  {
    if run != [] {
      hide Buffer;
      if !run[0].Reply? { SameAnswers(s, run[0]); }
      AnswersStay(After(s, run[0]), run[1..], i);
    }
  }

  lemma {:induction false} MomentAfter(s: State, run: seq<Event>, i: nat) returns (k: nat)
    requires Inv(s) && IsRun(s, run) && |s.answers| <= i < |Final(s, run).answers|
    requires s.pc.Replying? ==> i > |s.answers|
    ensures k <= |run| && IsRun(s, run[..k])
    ensures var u, a := Final(s, run[..k]), Final(s, run).answers[i];
            && |u.answers| == i && !u.pc.Idle? && u.pc.at == a.offset && u.pc.count == a.count
            && LongestRun(u.sectors, a.offset, a.count, |a.data|)
    decreases |run|
  {
    hide Inv, LongestRun, Covers, After, CanHappen;
    var e, t := run[0], After(s, run[0]);
    StepKeepsInv(s, e);
    AnswersStep(s, e);
    if !s.pc.Replying? && t.pc.Replying? && i == |s.answers| {
      LookupIsLongestRun(s, e);
      ReplyIsAnswer(t, run[1..]);
      k := 0;
    } else {
      k := MomentAfter(t, run[1..], i);
      k := k + 1;
      assert run[..k][1..] == run[1..][..k - 1] && run[..k][0] == e;
    }
  }

  lemma AnswersStep(s: State, e: Event)
    requires CanHappen(s, e)
    ensures |s.answers| <= |After(s, e).answers| <= |s.answers| + 1
    ensures |After(s, e).answers| > |s.answers| ==> s.pc.Replying? && !After(s, e).pc.Replying?
    ensures s.pc.Replying? && |After(s, e).answers| == |s.answers| ==> After(s, e).pc.Replying?
  {
    hide GetSectorEnd, Insert, Put, Buffer;
  }

  /**
   Every answer, to the producer or not and whatever the writes, is as long as the bytes that were there
   in a row, up to the count, at one moment of the run at which its read was under way.
   */
  lemma AnswersAreLongestRuns(s: State, run: seq<Event>, i: nat) returns (k: nat)
    requires Start(s) && IsRun(s, run) && i < |Final(s, run).answers|
    ensures k <= |run| && IsRun(s, run[..k])
    ensures var u, a := Final(s, run[..k]), Final(s, run).answers[i];
            && |u.answers| == i && !u.pc.Idle? && u.pc.at == a.offset && u.pc.count == a.count
            && LongestRun(u.sectors, a.offset, a.count, |a.data|)
  {
    k := MomentAfter(s, run, i);
  }

  /** The read under way will get at least `m` bytes. */
  ghost predicate Promised(s: State, m: nat) {
    !s.pc.Idle? && m <= s.pc.count && Available(s, s.pc.at, m) && (s.pc.Replying? ==> s.pc.n >= m)
  }

  lemma StepKeepsPromise(s: State, e: Event, m: nat)
    requires Inv(s) && Promised(s, m) && CanHappen(s, e) && !e.Reply?
    ensures Promised(After(s, e), m) && After(s, e).pc.at == s.pc.at && After(s, e).pc.count == s.pc.count
  {
    var t := After(s, e);
    if !s.pc.Replying? && t.pc.Replying? {
      LookupIsLongestRun(s, e);
    }
    if e.Publish? { PublishGrows(s, e.at, e.n); }
    hide GetSectorEnd, Insert, Put, Buffer, Covers, Inv, LongestRun;
  }

  /** Bytes that are there when a read is under way and has not found its answer are in the answer. */
  lemma {:induction false} AvailableBytesAreAnswered(s: State, run: seq<Event>, m: nat)
    requires Inv(s) && Promised(s, m) && IsRun(s, run) && |Final(s, run).answers| > |s.answers|
    ensures var a := Final(s, run).answers[|s.answers|];
            a.offset == s.pc.at && a.count == s.pc.count && |a.data| >= m
    decreases |run|
  {
    var t := After(s, run[0]);
    if run[0].Reply? {
      ReplyIsAnswer(s, run);
    } else {
      hide Inv, Promised, CanHappen, After;
      StepKeepsPromise(s, run[0], m);
      StepKeepsInv(s, run[0]);
      SameAnswers(s, run[0]);
      AvailableBytesAreAnswered(t, run[1..], m);
    }
  }

  // ---------------------------------------------------------------------------
  // The offset of the descriptor
  // ---------------------------------------------------------------------------

  /** The client asks for nothing while a detached thread has yet to move the offset. */
  ghost predicate Prompt(s: State, e: Event) {
    e.Seek? || e.Read? ==> s.moves == []
  }

  /** The read under way began where the client is, and at most one move, to where the client is, is left. */
  ghost predicate Settled(s: State) {
    && (s.moves == [] ==> s.offset == s.position)
    && (s.moves != [] ==> s.moves == [s.position] && s.pc.Idle?)
    && (!s.pc.Idle? ==> s.pc.at == s.position)
  }

  lemma StepKeepsSettled(s: State, e: Event)
    requires Settled(s) && CanHappen(s, e) && Prompt(s, e)
    ensures Settled(After(s, e))
  {
    hide GetSectorEnd, Insert, Put, Buffer;
  }

  /** If every move comes before the next call, each read is of the bytes at the position of the client. */
  lemma {:induction false} OffsetAgreement(s: State, run: seq<Event>)
    requires Settled(s) && IsRun(s, run) && Throughout(s, run, (t, e) => Prompt(t, e))
    ensures Settled(Final(s, run))
    decreases |run|
  {
    if run != [] {
      StepKeepsSettled(s, run[0]);
      OffsetAgreement(After(s, run[0]), run[1..]);
    }
  }

  /** The read under way never has to wait. */
  ghost predicate Inline(s: State, e: Event) {
    e.Continue? ==> !s.pc.AwaitingCommit? && !s.pc.AwaitingData?
  }

  ghost predicate NoneDetached(s: State) {
    s.moves == [] && !s.pc.Woken? && (s.pc.Replying? ==> !s.pc.detached)
  }

  /** Reads that never wait keep the two offsets equal, whatever the client does. */
  lemma {:induction false} InlineOffsetAgreement(s: State, run: seq<Event>)
    requires Settled(s) && NoneDetached(s) && IsRun(s, run) && Throughout(s, run, (t, e) => Inline(t, e))
    ensures Settled(Final(s, run)) && Final(s, run).moves == [] && Final(s, run).offset == Final(s, run).position
    decreases |run|
  {
    if run != [] {
      InlineStep(s, run[0]);
      InlineOffsetAgreement(After(s, run[0]), run[1..]);
    }
  }

  lemma InlineStep(s: State, e: Event)
    requires Settled(s) && NoneDetached(s) && CanHappen(s, e) && Inline(s, e)
    ensures Settled(After(s, e)) && NoneDetached(After(s, e))
  {
    hide GetSectorEnd, Insert, Put, Buffer;
    StepKeepsSettled(s, e);
  }

  // ---------------------------------------------------------------------------
  // A reader that does not seek
  // ---------------------------------------------------------------------------

  ghost predicate NoSeek(run: seq<Event>) {
    forall i :: 0 <= i < |run| ==> !run[i].Seek?
  }

  function EndOf(a: Answer): nat { a.offset + |a.data| }

  /** From `base` on, every answer begins where the one before it ended, and the last ends where the client is. */
  ghost predicate Chained(s: State, base: nat) {
    && (s.answers == [] ==> s.position == base)
    && (s.answers != [] ==> s.position == EndOf(s.answers[|s.answers| - 1]) && s.answers[0].offset == base)
    && (forall i :: 0 < i < |s.answers| ==> s.answers[i].offset == EndOf(s.answers[i - 1]))
  }

  lemma StepKeepsChained(s: State, e: Event, base: nat)
    requires Chained(s, base) && Settled(s) && CanHappen(s, e) && !e.Seek?
    ensures Chained(After(s, e), base)
  {
    var t := After(s, e);
    if e.Reply? {
      AnswerIsContents(s, e.junk);
    } else {
      SameAnswers(s, e);
      assert t.position == s.position;
    }
  }

  lemma {:induction false} RunKeepsChained(s: State, run: seq<Event>, base: nat)
    requires Chained(s, base) && Settled(s) && IsRun(s, run)
    requires Throughout(s, run, (t, e) => Prompt(t, e)) && NoSeek(run)
    ensures Chained(Final(s, run), base)
    decreases |run|
  {
    if run != [] {
      assert !run[0].Seek?;
      hide Chained, Settled, CanHappen, After;
      StepKeepsChained(s, run[0], base);
      StepKeepsSettled(s, run[0]);
      RunKeepsChained(After(s, run[0]), run[1..], base);
    }
  }

  /** All that the client has been given. */
  function ReadSoFar(answers: seq<Answer>): Data {
    if answers == [] then [] else ReadSoFar(answers[..|answers| - 1]) + answers[|answers| - 1].data
  }

  /** `d` is what was stored from `at` on. */
  ghost predicate IsStored(cells: map<int, Byte>, at: nat, d: Data) {
    forall k :: 0 <= k < |d| ==> Holds(cells, at + k, d[k])
  }

  predicate Holds(cells: map<int, Byte>, x: int, b: Byte) { x in cells && cells[x] == b }

  lemma {:induction false} ChainedBytes(cells: map<int, Byte>, answers: seq<Answer>, base: nat)
    requires forall i :: 0 <= i < |answers| ==> IsStored(cells, answers[i].offset, answers[i].data)
    requires answers != [] ==> answers[0].offset == base
    requires forall i :: 0 < i < |answers| ==> answers[i].offset == EndOf(answers[i - 1])
    ensures base + |ReadSoFar(answers)| == if answers == [] then base else EndOf(answers[|answers| - 1])
    ensures IsStored(cells, base, ReadSoFar(answers))
    decreases |answers|
  {
    if answers != [] {
      var k := |answers| - 1;
      ChainedBytes(cells, answers[..k], base);
      assert IsStored(cells, answers[k].offset, answers[k].data);
      StoredTogether(cells, base, ReadSoFar(answers[..k]), answers[k].data);
    }
  }

  lemma StoredTogether(cells: map<int, Byte>, at: nat, c: Data, d: Data)
    requires IsStored(cells, at, c) && IsStored(cells, at + |c|, d)
    ensures IsStored(cells, at, c + d)
  {
    forall k | 0 <= k < |c + d| ensures Holds(cells, at + k, (c + d)[k]) {
      if k >= |c| {
        assert Holds(cells, at + |c| + (k - |c|), d[k - |c|]);
      } else {
        assert Holds(cells, at + k, c[k]);
      }
    }
  }

  /**
   A client that does not seek, and asks for nothing while a move is due, is given what was stored from
   its first position on, each byte once and in order: if no sector claims a gap and no byte is
   overwritten with another.
   */
  lemma StreamedInOrder(s: State, run: seq<Event>)
    requires Start(s) && IsRun(s, run) && Throughout(s, run, (t, e) => Prompt(t, e)) && NoSeek(run)
    requires Throughout(s, run, (t, e) => NoGap(t, e)) && Throughout(s, run, (t, e) => WriteOnce(t, e))
    ensures var t := Final(s, run);
            s.position + |ReadSoFar(t.answers)| == t.position && IsStored(t.cells, s.position, ReadSoFar(t.answers))
  {
    StreamedBytesAreFinal(s, run);
    RunKeepsChained(s, run, s.position);
    var t := Final(s, run);
    forall i | 0 <= i < |t.answers| ensures IsStored(t.cells, t.answers[i].offset, t.answers[i].data) {
      assert Matches(t, t.answers[i]) && Within(t.cells, t.answers[i].offset, |t.answers[i].data|);
    }
    ChainedBytes(t.cells, t.answers, s.position);
  }

  // ---------------------------------------------------------------------------
  // Calls made before the moves of reads that waited
  // ---------------------------------------------------------------------------

  /** The detached threads act, each time the one that is `order[i]`-th among those left. */
  function MoveRun(order: seq<nat>): seq<Event> {
    if order == [] then [] else [Move(order[0])] + MoveRun(order[1..])
  }

  /** In this order every move happens. */
  ghost predicate Drains(s: State, order: seq<nat>) {
    IsRun(s, MoveRun(order)) && Final(s, MoveRun(order)).moves == []
  }

  /** Once every move has happened, in whatever order, the server is where the client is. */
  ghost predicate AgreesOnceDrained(s: State) {
    forall order :: Drains(s, order) ==> Final(s, MoveRun(order)).offset == s.position
  }

  lemma DrainStep(s: State, order: seq<nat>)
    requires order != []
    ensures Drains(s, order) <==> order[0] < |s.moves| && Drains(After(s, Move(order[0])), order[1..])
    ensures Drains(s, order) ==> Final(s, MoveRun(order)) == Final(After(s, Move(order[0])), MoveRun(order[1..]))
  {
    assert MoveRun(order)[0] == Move(order[0]) && MoveRun(order)[1..] == MoveRun(order[1..]);
  }

  /** The offset ends where some move puts it. */
  lemma {:induction false} DrainedOffset(s: State, order: seq<nat>)
    requires Drains(s, order)
    ensures var x := Final(s, MoveRun(order)).offset; if s.moves == [] then x == s.offset else x in s.moves
    decreases |order|
  {
    if order != [] {
      DrainStep(s, order);
      DrainedOffset(After(s, Move(order[0])), order[1..]);
    }
  }

  /** And each move is the last in some order. */
  lemma {:induction false} DrainLast(s: State, k: nat) returns (order: seq<nat>)
    requires k < |s.moves|
    ensures Drains(s, order) && Final(s, MoveRun(order)).offset == s.moves[k]
    decreases |s.moves|
  {
    hide Drains;
    if |s.moves| == 1 {
      order := [0];
      NothingToDrain(After(s, Move(0)));
    } else {
      var first := if k == 0 then 1 else 0;
      var rest := DrainLast(After(s, Move(first)), if k == 0 then 0 else k - 1);
      order := [first] + rest;
      assert order[1..] == rest;
    }
    assert |s.moves| == 1 ==> order[1..] == [];
    DrainStep(s, order);
  }

  lemma NothingToDrain(s: State)
    requires s.moves == []
    ensures Drains(s, []) && Final(s, MoveRun([])) == s
  {
  }

  /** The server ends where the client is, whatever the order of the moves, iff every move puts it there. */
  lemma DrainedAgreesIff(s: State)
    ensures AgreesOnceDrained(s)
            <==> if s.moves == [] then s.offset == s.position
                 else forall i :: 0 <= i < |s.moves| ==> s.moves[i] == s.position
  {
    if s.moves == [] { NothingToDrain(s); }
    if AgreesOnceDrained(s) {
      forall i | 0 <= i < |s.moves| ensures s.moves[i] == s.position {
        var order := DrainLast(s, i);
      }
    } else {
      var order :| Drains(s, order) && Final(s, MoveRun(order)).offset != s.position;
      DrainedOffset(s, order);
    }
  }

  /** A seek made while moves are outstanding holds iff each of them is to its target. */
  lemma LateMoveIff(s: State, target: nat)
    requires s.pc.Idle?
    ensures AgreesOnceDrained(After(s, Seek(target))) <==> forall i :: 0 <= i < |s.moves| ==> s.moves[i] == target
  {
    hide AgreesOnceDrained;
    DrainedAgreesIff(After(s, Seek(target)));
  }

  /** A read begins where the client is; a seek holds once every move has happened. */
  ghost predicate Honoured(s: State, e: Event)
    requires CanHappen(s, e)
  {
    && (e.Read? ==> After(s, e).pc.at == s.position)
    && (e.Seek? ==> AgreesOnceDrained(After(s, e)))
  }

  /**
   A call made between the reply and the move of a read that waited is honoured iff it is a read and
   the one before it got nothing, or a seek to where the one before it ended.
   */
  lemma LateCallIff(s: State, junk: int -> Byte, e: Event)
    requires Settled(s) && s.pc.Replying? && s.pc.detached && (e.Read? || e.Seek?)
    ensures CanHappen(After(s, Reply(junk)), e)
    ensures Honoured(After(s, Reply(junk)), e)
            <==> if e.Read? then s.pc.n == 0 else e.target == s.pc.at + s.pc.n
  {
    hide AgreesOnceDrained, Buffer;
    var t := After(s, Reply(junk));
    assert t.moves == [s.pc.at + s.pc.n] && t.moves[0] == s.pc.at + s.pc.n;
    if e.Seek? { LateMoveIff(t, e.target); }
  }

  // ---------------------------------------------------------------------------
  // Files with holes
  // ---------------------------------------------------------------------------

  /** A read woken by data is served whole if and only if its range has no hole. */
  lemma WokenReadIsWholeIff(s: State)
    requires Inv(s) && s.pc.Woken?
    ensures After(s, Continue).pc.n == s.pc.count <==> Available(s, s.pc.at, s.pc.count)
  {
    hide Covers, GetSectorEnd, NonEmpty, Ordered;
    GetSectorEndIsRunEnd(s.sectors, s.pc.at);
    var e := GetSectorEnd(s.sectors, s.pc.at);
    if e != SECTOR_NOT_FOUND && e < s.pc.at + s.pc.count {
      assert !Covers(s.sectors, e);
    }
    if e == SECTOR_NOT_FOUND && s.pc.count > 0 {
      assert !Covers(s.sectors, s.pc.at);
    }
  }

  // ---------------------------------------------------------------------------
  // Runs that show what the conditions are for
  // ---------------------------------------------------------------------------

  lemma NoEvents(s: State)
    ensures IsRun(s, []) && Final(s, []) == s
  {
  }

  lemma {:induction false} RunExtends(s: State, run: seq<Event>, e: Event)
    requires IsRun(s, run) && CanHappen(Final(s, run), e)
    ensures IsRun(s, run + [e]) && Final(s, run + [e]) == After(Final(s, run), e)
    decreases |run|
  {
    var longer := run + [e];
    if run != [] {
      RunExtends(After(s, run[0]), run[1..], e);
      assert longer[1..] == run[1..] + [e];
    }
  }

  lemma RunThen(s: State, run: seq<Event>, e: Event) returns (longer: seq<Event>)
    requires IsRun(s, run) && CanHappen(Final(s, run), e)
    ensures IsRun(s, longer) && Final(s, longer) == After(Final(s, run), e)
  {
    RunExtends(s, run, e);
    longer := run + [e];
  }

  /** A file that may be read early, and nothing in it yet. */
  ghost function Fresh(): State {
    State(true, false, [], map[], false, 0, 0, [], Idle, [])
  }

  /** One byte is stored and made readable. */
  lemma ByteWritten(s: State, run: seq<Event>, at: nat, b: Byte) returns (longer: seq<Event>)
    requires IsRun(s, run) && !Final(s, run).committed
    ensures IsRun(s, longer)
    ensures var t := Final(s, run);
            Final(s, longer) == t.(cells := Put(t.cells, at, [b]), sectors := Insert(t.sectors, at, at + 1))
  {
    hide IsRun, Final, Put, Insert;
    PutAt(Final(s, run).cells, at, [b], at);
    longer := RunThen(s, run, Store(at, [b]));
    longer := RunThen(s, longer, Publish(at, 1));
  }

  /** A read that finds its file open is about to look for its sector. */
  lemma ReadAsked(s: State, run: seq<Event>, count: nat) returns (longer: seq<Event>)
    requires IsRun(s, run) && Final(s, run).pc.Idle?
    requires Final(s, run).firable && !Final(s, run).committed && !Final(s, run).producer
    ensures IsRun(s, longer)
    ensures Final(s, longer) == Final(s, run).(pc := Looking(Final(s, run).offset, count, false))
  {
    hide IsRun, Final, GetSectorEnd;
    longer := RunThen(s, run, Read(count));
    longer := RunThen(s, longer, Continue);
  }

  /** waitForData looks at the end of the file only: a hole is answered as the end of an open file. */
  lemma HoleIsServedAsEndOfFile(b: Byte) returns (run: seq<Event>)
    ensures Start(Fresh()) && IsRun(Fresh(), run)
    ensures var t := Final(Fresh(), run);
            !t.committed && t.sectors == [Sector(1, 2)] && t.answers == [Answer(0, 1, [])]
  {
    hide IsRun, Final, Put, Insert, GetSectorEnd;
    NoEvents(Fresh());
    run := ByteWritten(Fresh(), [], 1, b);
    InsertIntoEmpty(1, 2);
    run := ReadAsked(Fresh(), run, 1);
    NothingBefore(Sector(1, 2), 0);
    run := RunThen(Fresh(), run, Continue);
    run := RunThen(Fresh(), run, Continue);
    run := RunThen(Fresh(), run, Continue);
    run := RunThen(Fresh(), run, Reply(_ => 0));
    assert Final(Fresh(), run).answers[0].data == [];
  }

  /** A read of one byte waits for it, gets it, and has not moved the offset yet. */
  lemma ReadThatWaited(b: Byte) returns (run: seq<Event>)
    ensures Start(Fresh()) && IsRun(Fresh(), run)
    ensures Final(Fresh(), run) == Fresh().(sectors := [Sector(0, 1)], cells := Put(map[], 0, [b]), position := 1,
                                            moves := [1], answers := [Answer(0, 1, [b])])
  {
    hide IsRun, Final, Put, Insert, GetSectorEnd;
    NoEvents(Fresh());
    run := ReadAsked(Fresh(), [], 1);
    NothingInEmpty(0);
    run := RunThen(Fresh(), run, Continue);
    run := ByteWritten(Fresh(), run, 0, b);
    InsertIntoEmpty(0, 1);
    run := RunThen(Fresh(), run, Continue);
    EndAtSector([Sector(0, 1)], 0, 0);
    run := RunThen(Fresh(), run, Continue);
    run := RunThen(Fresh(), run, Reply(_ => 0));
    PutAt(map[], 0, [b], 0);
    assert Final(Fresh(), run).answers[0].data == [b];
  }

  /** A seek that comes between the reply and the move of a read that waited is lost. */
  lemma SeekIsLost(b: Byte) returns (run: seq<Event>)
    ensures Start(Fresh()) && IsRun(Fresh(), run)
    ensures var t := Final(Fresh(), run); t.pc.Idle? && t.moves == [] && t.position == 0 && t.offset == 1
  {
    hide IsRun, Final, Put;
    run := ReadThatWaited(b);
    run := RunThen(Fresh(), run, Seek(0));
    run := RunThen(Fresh(), run, Move(0));
  }

  /** A read that comes there gets the same byte again. */
  lemma ByteIsReadTwice(b: Byte) returns (run: seq<Event>)
    ensures Start(Fresh()) && IsRun(Fresh(), run)
    ensures Final(Fresh(), run).answers == [Answer(0, 1, [b]), Answer(0, 1, [b])]
  {
    hide IsRun, Final, Put, GetSectorEnd;
    run := ReadThatWaited(b);
    run := ReadAsked(Fresh(), run, 1);
    EndAtSector([Sector(0, 1)], 0, 0);
    run := RunThen(Fresh(), run, Continue);
    run := RunThen(Fresh(), run, Reply(_ => 0));
    PutAt(map[], 0, [b], 0);
    assert Final(Fresh(), run).answers[1].data == [b];
  }

  /** A sector that claims a gap makes readers get a byte that nobody wrote. */
  lemma GapByteIsServed(b: Byte, junk: int -> Byte) returns (run: seq<Event>)
    ensures Start(Fresh()) && IsRun(Fresh(), run)
    ensures var t := Final(Fresh(), run);
            t.answers == [Answer(0, 3, [b, junk(1), b])] && 1 !in t.cells
  {
    hide IsRun, Final, Put, Insert, GetSectorEnd;
    NoEvents(Fresh());
    run := ByteWritten(Fresh(), [], 2, b);
    InsertIntoEmpty(2, 3);
    run := ByteWritten(Fresh(), run, 0, b);
    GapIsOneSector();
    run := ReadAsked(Fresh(), run, 3);
    EndAtSector([Sector(0, 3)], 0, 0);
    run := RunThen(Fresh(), run, Continue);
    run := RunThen(Fresh(), run, Reply(junk));
    TwoCells(b);
    assert Final(Fresh(), run).answers[0].data == [b, junk(1), b];
  }

  lemma GapIsOneSector()
    ensures Insert([Sector(2, 3)], 0, 1) == [Sector(0, 3)]
  {
    var s := [Sector(2, 3)];
    var first, last, lo, hi := InsertShape(s, 0, 1);
    MergedEndIsMax(s, 0, 1);
  }

  lemma TwoCells(b: Byte)
    ensures var c := Put(Put(map[], 2, [b]), 0, [b]);
            0 in c && 1 !in c && 2 in c && c[0] == c[2] == b
  {
    var c := Put(map[], 2, [b]);
    PutAt(map[], 2, [b], 0);
    PutAt(map[], 2, [b], 1);
    PutAt(map[], 2, [b], 2);
    PutAt(c, 0, [b], 0);
    PutAt(c, 0, [b], 1);
    PutAt(c, 0, [b], 2);
  }
}
