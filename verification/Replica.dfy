/**
 Reads of a file whose home is another server: the home samples its commit flag, its size and its
 bytes one after the other while it is being written, and the replica stores what it gets and
 then decides on its own whether it may serve a read. Models request_remote_read,
 handle_remote_read_request, handle_remote_read, wait_for_data, serve_remote_read,
 remote_reply_size, handle_remote_read_reply and handle_read_reply for one reader of the replica
 and an append-only home file. At the replica one thread serves the calls of the client, and
 another one the replies of the home: it answers the client first and moves the offset after that.
 */
module Replica {
  import opened Bytes
  import opened Cells
  import opened Sectors

  /** Steps of the one read that may be under way; `at` is the offset it was last read at. */
  datatype Pc =
    | Idle
    | Deciding(at: nat, count: nat)                                        // replica: may it serve?
    | Rereading(at: nat, count: nat, remote: bool)                         // replica: reads its offset again
    | Local(at: nat, count: nat)                                           // replica: answers from its sectors
    | Asked(at: nat, count: nat)                                           // home: samples its size
    | Sized(at: nat, count: nat, available: bool)                          // home: samples the flag
    | Waiting(at: nat, count: nat)                                         // home: waits for data or the commit
    | Serving(at: nat, count: nat)                                         // home: samples the flag to send
    | Flagged(at: nat, count: nat, complete: bool)                         // home: samples the bytes to send
    | Counted(at: nat, count: nat, complete: bool, n: nat)                 // home: samples the size to send
    | Measured(at: nat, count: nat, complete: bool, n: nat, size: nat)     // home: copies the bytes
    | Replied(at: nat, count: nat, complete: bool, data: Data, size: nat)  // replica: stores them at its offset
    | Storing(count: nat, complete: bool, n: nat, size: nat)               // replica: sets the real size
    | Sizing(count: nat, complete: bool, n: nat)                           // replica: inserts the sector
    | Inserted(count: nat, complete: bool)                                 // replica: sets the flag
    | Committed(count: nat)                                                // replica: answers the reader

  /** `asked` is where the client was when it asked, `offset` where the bytes were taken from. */
  datatype Answer = Answer(asked: nat, offset: nat, count: nat, data: Data)

  /** The move of the offset that the thread of the replies has yet to make. */
  datatype Late = Done | Due(to: nat)

  /**
   `bytes` and `committed` are the home file. The replica has `sectors`, the bytes it fetched in
   `cells`, the `realSize` and `replicaCommitted` the home told it, and the offset of the reader;
   `position` is the offset the client was told or has set. `cap` is the prefetch limit of the
   home, zero for none.
   */
  datatype State = State(
    firable: bool, cap: nat,
    bytes: Data, committed: bool,
    sectors: seq<Sector>, cells: map<int, Byte>, realSize: nat, replicaCommitted: bool,
    offset: nat, position: nat, late: Late,
    pc: Pc, answers: seq<Answer>)

  datatype Event =
    | Append(d: Data)              // a writer at the home
    | Commit                       // the home
    | Seek(target: nat)            // the client, between reads
    | Read(count: nat)             // the client
    | Continue(junk: int -> Byte)  // the read under way; `junk` is what a buffer has where nothing was stored
    | Move                         // the thread of the replies

  // ---------------------------------------------------------------------------
  // Steps
  // ---------------------------------------------------------------------------

  /** remote_reply_size */
  function ReplySize(stored: nat, offset: nat, cap: nat): nat {
    var n := Max(0, stored - offset);
    if cap != 0 && n > cap then cap else n
  }

  datatype Choice = FromSectors | Whole | FromHome

  /** What request_remote_read decides: handle_local_read, an answer at once, or a request to the home. */
  function Choose(s: State, at: nat, count: nat): Choice {
    var endOfSector := GetSectorEnd(s.sectors, at);
    var known := if endOfSector == SECTOR_NOT_FOUND then 0 else endOfSector;
    if s.replicaCommitted && (at + count <= endOfSector || known == s.realSize) then FromSectors
    else if at + count <= endOfSector then Whole
    else FromHome
  }

  /** How many bytes handle_local_read answers with, for which the file is complete. */
  function LocalSize(sectors: seq<Sector>, at: nat, count: nat): nat {
    var endOfSector := GetSectorEnd(sectors, at);
    if endOfSector == SECTOR_NOT_FOUND then 0 else Max(0, Min(count, endOfSector - at))
  }

  /** How many bytes handle_read_reply answers with. */
  function ServedAfterReply(sectors: seq<Sector>, at: nat, count: nat): nat {
    var endOfSector := GetSectorEnd(sectors, at);
    if endOfSector > at + count then count else Max(0, endOfSector - at)
  }

  /** The client has its answer. */
  ghost function Told(s: State, at: nat, count: nat, n: nat, junk: int -> Byte): State {
    s.(pc := Idle, position := at + n,
       answers := s.answers + [Answer(s.position, at, count, Buffer(s.cells, junk, at, n))])
  }

  ghost predicate CanHappen(s: State, e: Event) {
    match e
    case Append(d) => true
    case Commit => true
    case Seek(target) => s.pc.Idle?
    case Read(count) => s.pc.Idle?
    case Continue(junk) =>
      && !s.pc.Idle?
      && (s.pc.Waiting? ==> |s.bytes| >= s.pc.at + s.pc.count || s.committed)
      && (s.pc.Measured? && s.pc.n > 0 ==> s.pc.at + s.pc.n <= |s.bytes|)
      && (s.pc.Replied? ==> s.late.Done?)
    case Move => s.late.Due?
  }

  predicate AtHome(pc: Pc) {
    pc.Asked? || pc.Sized? || pc.Waiting? || pc.Serving? || pc.Flagged? || pc.Counted? || pc.Measured?
  }

  /** The samples the home takes, in the order in which it takes them. */
  ghost function HomeStep(s: State): Pc
    requires AtHome(s.pc) && (s.pc.Measured? && s.pc.n > 0 ==> s.pc.at + s.pc.n <= |s.bytes|)
  {
    match s.pc
    case Asked(at, count) => Sized(at, count, at + count <= |s.bytes|)
    case Sized(at, count, available) =>
      if s.committed || (s.firable && available) then Serving(at, count) else Waiting(at, count)
    case Waiting(at, count) => Serving(at, count)
    case Serving(at, count) => Flagged(at, count, s.committed)
    case Flagged(at, count, complete) => Counted(at, count, complete, ReplySize(|s.bytes|, at, s.cap))
    case Counted(at, count, complete, n) => Measured(at, count, complete, n, |s.bytes|)
    case Measured(at, count, complete, n, size) =>
      Replied(at, count, complete, if n == 0 then [] else s.bytes[at..at + n], size)
  }

  ghost function ReplicaStep(s: State, junk: int -> Byte): State
    requires !s.pc.Idle? && !AtHome(s.pc)
  {
    match s.pc
    case Deciding(at, count) =>
      (match Choose(s, at, count)
       case FromSectors => s.(pc := Rereading(at, count, false))
       case Whole => Told(s, at, count, count, junk).(offset := at + count)
       case FromHome => s.(pc := Rereading(at, count, true)))
    case Rereading(_, count, remote) => s.(pc := if remote then Asked(s.offset, count) else Local(s.offset, count))
    case Local(at, count) =>
      var n := LocalSize(s.sectors, at, count);
      var found := GetSectorEnd(s.sectors, at) != SECTOR_NOT_FOUND;
      Told(s, at, count, n, junk).(offset := if found then at + n else s.offset)
    case Replied(_, count, complete, data, size) =>
      s.(cells := Put(s.cells, s.offset, data), pc := Storing(count, complete, |data|, size))
    case Storing(count, complete, n, size) => s.(realSize := size, pc := Sizing(count, complete, n))
    case Sizing(count, complete, n) =>
      s.(sectors := Insert(s.sectors, s.offset, s.offset + n), pc := Inserted(count, complete))
    case Inserted(count, complete) => s.(replicaCommitted := complete, pc := Committed(count))
    case Committed(count) =>
      var n := ServedAfterReply(s.sectors, s.offset, count);
      Told(s, s.offset, count, n, junk).(late := Due(s.offset + n))
  }

  ghost function AfterContinue(s: State, junk: int -> Byte): State
    requires CanHappen(s, Continue(junk))
  {
    if AtHome(s.pc) then s.(pc := HomeStep(s)) else ReplicaStep(s, junk)
  }

  ghost function After(s: State, e: Event): State
    requires CanHappen(s, e)
  {
    match e
    case Append(d) => s.(bytes := s.bytes + d)
    case Commit => s.(committed := true)
    case Seek(target) => s.(offset := target, position := target)
    case Read(count) => s.(pc := Deciding(s.offset, count))
    case Continue(junk) => AfterContinue(s, junk)
    case Move => s.(offset := s.late.to, late := Done)
  }

  // ---------------------------------------------------------------------------
  // Bytes: the replica holds and answers home bytes
  // ---------------------------------------------------------------------------

  ghost predicate Right(s: State, x: int) {
    0 <= x < |s.bytes| && x in s.cells && s.cells[x] == s.bytes[x]
  }

  /** Every byte in a sector of the replica was fetched, and is the home byte. */
  ghost predicate Agrees(s: State) {
    forall x :: Covers(s.sectors, x) ==> Right(s, x)
  }

  /** The bytes from the offset on that the read under way has stored. */
  ghost function Pending(s: State): nat {
    match s.pc
    case Storing(_, _, n, _) => n
    case Sizing(_, _, n) => n
    case _ => 0
  }

  /** No byte is in the replica but those of its sectors and those just stored. */
  ghost predicate OnlyFetched(s: State) {
    forall x :: x in s.cells ==> Covers(s.sectors, x) || s.offset <= x < s.offset + Pending(s)
  }

  ghost predicate JustFetched(s: State) {
    forall x :: s.offset <= x < s.offset + Pending(s) ==> Right(s, x)
  }

  ghost predicate IsHome(bytes: Data, at: nat, data: Data) {
    data != [] ==> at + |data| <= |bytes| && data == bytes[at..at + |data|]
  }

  /** What the home has sampled is there, and what it sends are its bytes where it was asked for them. */
  ghost predicate SamplesSound(s: State) {
    match s.pc
    case Counted(at, _, _, n) => n > 0 ==> at + n <= |s.bytes|
    case Measured(at, _, _, n, _) => n > 0 ==> at + n <= |s.bytes|
    case Replied(at, _, _, data, _) => IsHome(s.bytes, at, data)
    case Storing(_, _, _, _) => s.late.Done?
    case Sizing(_, _, _) => s.late.Done?
    case Inserted(_, _) => s.late.Done? && GetSectorEnd(s.sectors, s.offset) >= s.offset
    case Committed(_) => s.late.Done? && GetSectorEnd(s.sectors, s.offset) >= s.offset
    case _ => true
  }

  /** Every answer is bytes of the home file at its offset, and no more than asked for. */
  ghost predicate AnswersRight(s: State) {
    forall i :: 0 <= i < |s.answers| ==>
      IsHome(s.bytes, s.answers[i].offset, s.answers[i].data) && |s.answers[i].data| <= s.answers[i].count
  }

  ghost predicate Inv(s: State) {
    && Ordered(s.sectors) && Agrees(s) && OnlyFetched(s) && JustFetched(s)
    && SamplesSound(s) && AnswersRight(s)
  }

  /** The sector of this reply does not claim a byte that was not fetched. */
  ghost predicate NoGap(s: State, e: Event) {
    e.Continue? && s.pc.Sizing? ==> !ClaimsGap(s.sectors, s.offset, s.offset + s.pc.n)
  }

  /** This reply is stored at the offset that its request carried. */
  ghost predicate InPlace(s: State, e: Event) {
    e.Continue? && s.pc.Replied? ==> s.offset == s.pc.at
  }

  /** After a reply of `b - a` bytes is stored, the sector at its offset holds at least them. */
  lemma InsertedEnd(s: seq<Sector>, a: nat, b: nat)
    requires Ordered(s) && a <= b
    ensures GetSectorEnd(Insert(s, a, b), a) >= b
  {
    var first, last, lo, hi := InsertedSector(s, a, b);
    InsertOrdered(s, a, b);
    EndAtSector(Insert(s, a, b), first, a);
  }

  lemma InsertedSector(s: seq<Sector>, a: nat, b: nat) returns (first: nat, last: nat, lo: int, hi: int)
    requires Ordered(s) && a <= b
    ensures first < |Insert(s, a, b)| && Insert(s, a, b)[first] == Sector(lo, hi) && lo <= a <= b <= hi
  {
    hide Insert;
    first, last, lo, hi := InsertShape(s, a, b);
    MergedEndIsMax(s, a, b);
  }

  lemma BufferIsHome(s: State, junk: int -> Byte, at: nat, n: nat)
    requires forall x :: at <= x < at + n ==> Right(s, x)
    ensures IsHome(s.bytes, at, Buffer(s.cells, junk, at, n))
  {
    var d := Buffer(s.cells, junk, at, n);
    forall i | 0 <= i < n ensures at + i < |s.bytes| && d[i] == s.bytes[at + i] {
      assert Right(s, at + i);
    }
    if n > 0 { assert Right(s, at + n - 1); }
  }

  lemma AppendKeepsInv(s: State, d: Data)
    requires Inv(s)
    ensures Inv(s.(bytes := s.bytes + d))
  {
    hide Covers, Ordered, GetSectorEnd;
    var t := s.(bytes := s.bytes + d);
    forall x | Right(s, x) ensures Right(t, x) {}
    forall at: nat, data | IsHome(s.bytes, at, data) ensures IsHome(t.bytes, at, data) {}
  }

  /** An answer from a sector, whatever it does to the offset. */
  lemma ToldKeepsInv(s: State, at: nat, count: nat, n: nat, junk: int -> Byte, t: State)
    requires Inv(s) && (s.pc.Deciding? || s.pc.Local? || s.pc.Committed?) && n <= count
    requires n > 0 ==> at + n <= GetSectorEnd(s.sectors, at)
    requires t == Told(s, at, count, n, junk).(offset := t.offset, late := t.late)
    ensures Inv(t)
  {
    hide Covers, Ordered, GetSectorEnd, Buffer;
    SectorEndCovers(s.sectors, at);
    assert forall x :: at <= x < at + n ==> Right(s, x);
    BufferIsHome(s, junk, at, n);
    BufferLength(s.cells, junk, at, n);
    assert forall x :: Right(s, x) ==> Right(t, x);
  }

  lemma BufferLength(cells: map<int, Byte>, junk: int -> Byte, at: nat, n: nat)
    ensures |Buffer(cells, junk, at, n)| == n
  {
  }

  lemma StoreKeepsInv(s: State, junk: int -> Byte)
    requires Inv(s) && s.pc.Replied? && CanHappen(s, Continue(junk)) && s.offset == s.pc.at
    ensures Inv(After(s, Continue(junk)))
  {
    hide Covers, Ordered, GetSectorEnd;
    var t := After(s, Continue(junk));
    forall x ensures (x in t.cells <==> x in s.cells || s.offset <= x < s.offset + |s.pc.data|)
                     && (Right(s, x) || s.offset <= x < s.offset + |s.pc.data| ==> Right(t, x)) {
      PutAt(s.cells, s.offset, s.pc.data, x);
    }
  }

  lemma InsertKeepsInv(s: State, junk: int -> Byte)
    requires Inv(s) && s.pc.Sizing? && NoGap(s, Continue(junk))
    ensures Inv(After(s, Continue(junk)))
  {
    hide Covers, Ordered, GetSectorEnd, Insert;
    var t := After(s, Continue(junk));
    InsertExactIff(s.sectors, s.offset, s.offset + s.pc.n);
    InsertOrdered(s.sectors, s.offset, s.offset + s.pc.n);
    InsertedEnd(s.sectors, s.offset, s.offset + s.pc.n);
    assert forall x :: Right(s, x) ==> Right(t, x);
  }

  /** The steps that only look, or that set what a step has seen. */
  ghost predicate Looks(pc: Pc) {
    !pc.Idle? && !pc.Deciding? && !pc.Local? && !pc.Replied? && !pc.Sizing? && !pc.Committed?
  }

  /** Such a step leaves all bytes where they are. */
  lemma LookLeavesBytes(s: State, junk: int -> Byte)
    requires Looks(s.pc) && CanHappen(s, Continue(junk))
    ensures var t := After(s, Continue(junk));
            && t == s.(pc := t.pc, realSize := t.realSize, replicaCommitted := t.replicaCommitted)
            && Pending(t) == Pending(s)
  {
    hide GetSectorEnd, Insert, Put, Buffer;
  }

  lemma LookIsSound(s: State, junk: int -> Byte)
    requires SamplesSound(s) && Looks(s.pc) && CanHappen(s, Continue(junk))
    ensures SamplesSound(After(s, Continue(junk)))
  {
    hide GetSectorEnd, Insert, Put, Buffer;
  }

  lemma LookKeepsInv(s: State, junk: int -> Byte)
    requires Inv(s) && Looks(s.pc) && CanHappen(s, Continue(junk))
    ensures Inv(After(s, Continue(junk)))
  {
    hide Covers, Ordered, After, SamplesSound, Pending, CanHappen;
    LookIsSound(s, junk);
    LookLeavesBytes(s, junk);
    var t := After(s, Continue(junk));
    assert forall x :: Right(s, x) ==> Right(t, x);
  }

  lemma ContinueKeepsInv(s: State, junk: int -> Byte)
    requires Inv(s) && CanHappen(s, Continue(junk)) && NoGap(s, Continue(junk)) && InPlace(s, Continue(junk))
    ensures Inv(After(s, Continue(junk)))
  {
    hide Covers, Ordered, GetSectorEnd, Insert, Put, Buffer;
    var t := After(s, Continue(junk));
    match s.pc
    case Deciding(at, count) =>
      if Choose(s, at, count).Whole? {
        ToldKeepsInv(s, at, count, count, junk, t);
      } else {
        assert forall x :: Right(s, x) ==> Right(t, x);
      }
    case Local(at, count) =>
      SectorEndCovers(s.sectors, at);
      ToldKeepsInv(s, at, count, LocalSize(s.sectors, at, count), junk, t);
    case Replied(_, _, _, _, _) => StoreKeepsInv(s, junk);
    case Sizing(_, _, _) => InsertKeepsInv(s, junk);
    case Committed(count) =>
      ToldKeepsInv(s, s.offset, count, ServedAfterReply(s.sectors, s.offset, count), junk, t);
    case _ => LookKeepsInv(s, junk);
  }

  lemma StepKeepsInv(s: State, e: Event)
    requires Inv(s) && CanHappen(s, e) && NoGap(s, e) && InPlace(s, e)
    ensures Inv(After(s, e))
  {
    hide Covers, Ordered, GetSectorEnd, Insert, AfterContinue;
    match e
    case Append(d) => AppendKeepsInv(s, d);
    case Continue(junk) => ContinueKeepsInv(s, junk);
    case _ => assert forall x :: Right(s, x) ==> Right(After(s, e), x);
  }

  /** The replica when a reply has been stored, its size set and its sector inserted. */
  ghost function WithReply(s: State): State
    requires s.pc.Replied?
  {
    s.(cells := Put(s.cells, s.offset, s.pc.data), realSize := s.pc.size,
       sectors := Insert(s.sectors, s.offset, s.offset + |s.pc.data|), pc := Inserted(s.pc.count, s.pc.complete))
  }

  lemma ReplyInThreeSteps(s: State, junk: int -> Byte)
    requires s.pc.Replied? && s.late.Done?
    ensures var c := Continue(junk); After(After(After(s, c), c), c) == WithReply(s)
  {
    hide Put, Insert, GetSectorEnd, Buffer;
  }

  /**
   Once a reply is stored every byte of the replica is right, if and only if its bytes are those of the
   home at the offset where they are stored, and its sector claims no gap.
   */
  lemma ReplyAgreesIff(s: State)
    requires Inv(s) && s.pc.Replied?
    ensures Agrees(WithReply(s))
            <==> IsHome(s.bytes, s.offset, s.pc.data) && !ClaimsGap(s.sectors, s.offset, s.offset + |s.pc.data|)
    ensures s.offset == s.pc.at ==> IsHome(s.bytes, s.offset, s.pc.data)
  {
    hide Covers, Ordered, GetSectorEnd, Insert, ClaimsGap, Put;
    var a, b := s.offset, s.offset + |s.pc.data|;
    var t := WithReply(s);
    if ClaimsGap(s.sectors, a, b) {
      GapIsUnfetched(s.sectors, a, b);
      var x := MergedEnd(s.sectors, a, b);
      assert x !in s.cells;
      PutAt(s.cells, a, s.pc.data, x);
      assert Covers(t.sectors, x) && !Right(t, x);
    } else if IsHome(s.bytes, a, s.pc.data) {
      InsertExactIff(s.sectors, a, b);
      forall x | Covers(t.sectors, x) ensures Right(t, x) {
        PutAt(s.cells, a, s.pc.data, x);
      }
    } else {
      var i := Misplaced(s.bytes, a, s.pc.data);
      InsertCovers(s.sectors, a, b, a + i);
      PutAt(s.cells, a, s.pc.data, a + i);
      assert Covers(t.sectors, a + i) && !Right(t, a + i);
    }
  }

  lemma Misplaced(bytes: Data, at: nat, data: Data) returns (i: nat)
    requires !IsHome(bytes, at, data)
    ensures i < |data| && (at + i >= |bytes| || bytes[at + i] != data[i])
  {
    if at + |data| > |bytes| {
      i := |data| - 1;
    } else {
      i :| i < |data| && bytes[at + i] != data[i];
    }
  }

  lemma GapIsUnfetched(s: seq<Sector>, a: int, b: int)
    requires Ordered(s) && a <= b && ClaimsGap(s, a, b)
    ensures var x := MergedEnd(s, a, b); x >= b && !Covers(s, x) && Covers(Insert(s, a, b), x)
  {
    hide Insert;
    var x := MergedEnd(s, a, b);
    InsertCovers(s, a, b, x);
    MergedEndIsMax(s, a, b);
    var i :| 0 <= i < |s| && s[i].start == x + 1;
    assert !Covers(s, x);
  }

  // ---------------------------------------------------------------------------
  // Flags: a replica that calls the file committed knows its final size
  // ---------------------------------------------------------------------------

  /** The home file is not written after its commit. */
  ghost predicate Closed(s: State, e: Event) {
    e.Append? ==> !s.committed
  }

  ghost predicate FlagIsFinal(s: State) {
    s.replicaCommitted ==> s.committed && s.realSize == |s.bytes|
  }

  /** The read under way has sampled the commit flag. */
  ghost predicate FlagSampled(s: State, complete: bool) {
    (complete ==> s.committed) && (s.replicaCommitted ==> complete)
  }

  ghost predicate SizeSampled(s: State, complete: bool, size: nat) {
    FlagSampled(s, complete) && (complete ==> size == |s.bytes|)
  }

  ghost predicate FlagsSound(s: State) {
    FlagIsFinal(s) &&
    match s.pc
    case Flagged(_, _, complete) => FlagSampled(s, complete)
    case Counted(_, _, complete, _) => FlagSampled(s, complete)
    case Measured(_, _, complete, _, size) => SizeSampled(s, complete, size)
    case Replied(_, _, complete, _, size) => SizeSampled(s, complete, size)
    case Storing(_, complete, _, size) => SizeSampled(s, complete, size)
    case Sizing(_, complete, _) => SizeSampled(s, complete, s.realSize)
    case Inserted(_, complete) => SizeSampled(s, complete, s.realSize)
    case _ => true
  }

  lemma StepKeepsFlags(s: State, e: Event)
    requires FlagsSound(s) && CanHappen(s, e) && Closed(s, e)
    ensures FlagsSound(After(s, e))
  {
    hide GetSectorEnd, Insert, Put, Buffer;
  }

  // ---------------------------------------------------------------------------
  // Whole answers, for reads that start within the home file
  // ---------------------------------------------------------------------------

  ghost predicate WithinFile(s: State, e: Event) {
    e.Seek? ==> e.target <= |s.bytes|
  }

  /** handle_local_read serves at the offset for which request_remote_read chose it. */
  ghost predicate Steady(s: State, e: Event) {
    e.Continue? && s.pc.Rereading? && !s.pc.remote ==> s.offset == s.pc.at
  }

  /** With a prefetch limit, the sector of this reply claims no gap. Without one none does. */
  ghost predicate Tight(s: State, e: Event) {
    s.cap != 0 ==> NoGap(s, e)
  }

  /** As many bytes as the prefetch limit lets through. */
  predicate Limited(s: State, n: int) { s.cap != 0 && n >= s.cap }

  /**
   The bytes sampled reach to `count`, to the end of file or to the prefetch limit; without a limit they
   reach past all the data of the replica.
   */
  ghost predicate Reaches(s: State, at: nat, count: nat, complete: bool, n: nat) {
    && at + n <= |s.bytes|
    && (s.cap == 0 ==> FileSize(s.sectors) <= at + n)
    && (Limited(s, n) || if complete then at + n == |s.bytes| else n >= count)
  }

  ghost predicate DataOrCommit(s: State, at: nat, count: nat, complete: bool) {
    at <= |s.bytes| && (complete || at + count <= |s.bytes|)
  }

  /** The sector at the offset holds `count` bytes, ends with a committed file, or is as long as the limit. */
  ghost predicate SectorSuffices(s: State, count: nat) {
    var e := GetSectorEnd(s.sectors, s.offset);
    && s.offset <= e <= |s.bytes|
    && (e >= s.offset + count || (s.committed && e == |s.bytes|) || Limited(s, e - s.offset))
  }

  ghost predicate SamplesReach(s: State) {
    match s.pc
    case Deciding(at, count) => at <= |s.bytes|
    case Rereading(at, count, remote) => at <= |s.bytes| && (!remote ==> Choose(s, at, count).FromSectors?)
    case Local(at, count) => at <= |s.bytes| && Choose(s, at, count).FromSectors?
    case Asked(at, count) => at <= |s.bytes|
    case Sized(at, count, available) => at <= |s.bytes| && (available ==> at + count <= |s.bytes|)
    case Waiting(at, count) => at <= |s.bytes|
    case Serving(at, count) => DataOrCommit(s, at, count, s.committed)
    case Flagged(at, count, complete) => DataOrCommit(s, at, count, complete)
    case Counted(at, count, complete, n) => Reaches(s, at, count, complete, n)
    case Measured(at, count, complete, n, _) => Reaches(s, at, count, complete, n)
    case Replied(at, count, complete, data, _) => Reaches(s, at, count, complete, |data|)
    case Storing(count, complete, n, _) => Reaches(s, s.offset, count, complete, n)
    case Sizing(count, complete, n) => Reaches(s, s.offset, count, complete, n)
    case Inserted(count, _) => SectorSuffices(s, count)
    case Committed(count) => SectorSuffices(s, count)
    case _ => true
  }

  /** An answer is short only at the end of a committed file. */
  ghost predicate AnswersComplete(s: State) {
    forall i :: 0 <= i < |s.answers| && |s.answers[i].data| < s.answers[i].count ==>
      s.committed && s.answers[i].offset + |s.answers[i].data| == |s.bytes|
  }

  /** An answer is short only at the end of a committed file, or when it is as long as the prefetch limit. */
  ghost predicate AnswersReach(s: State) {
    forall i :: 0 <= i < |s.answers| && |s.answers[i].data| < s.answers[i].count ==>
      Limited(s, |s.answers[i].data|) || (s.committed && s.answers[i].offset + |s.answers[i].data| == |s.bytes|)
  }

  ghost predicate Full(s: State) {
    && FileSize(s.sectors) <= |s.bytes|
    && s.offset <= |s.bytes| && (s.late.Due? ==> s.late.to <= |s.bytes|)
    && SamplesReach(s) && AnswersReach(s)
  }

  /** All that a run must be for its answers to be exact. */
  ghost predicate Orderly(s: State, e: Event) {
    WithinFile(s, e) && Closed(s, e) && InPlace(s, e) && Steady(s, e) && Tight(s, e)
  }

  lemma FullHasNoGap(s: State, e: Event)
    requires Ordered(s.sectors) && Full(s) && Tight(s, e)
    ensures NoGap(s, e)
  {
    if s.cap == 0 && e.Continue? && s.pc.Sizing? {
      MergedEndIsMax(s.sectors, s.offset, s.offset + s.pc.n);
      EndsIncrease(s.sectors);
    }
  }

  lemma ToldKeepsFull(s: State, at: nat, count: nat, n: nat, junk: int -> Byte, t: State)
    requires Full(s) && at + n <= |s.bytes|
    requires n >= count || (s.committed && at + n == |s.bytes|) || Limited(s, n)
    requires t == Told(s, at, count, n, junk).(offset := t.offset, late := t.late)
    requires t.offset <= |s.bytes| && (t.late.Due? ==> t.late.to <= |s.bytes|)
    ensures Full(t)
  {
    hide FileSize, Buffer, GetSectorEnd;
    BufferLength(s.cells, junk, at, n);
  }

  lemma DecideKeepsFull(s: State, junk: int -> Byte)
    requires Inv(s) && Full(s) && s.pc.Deciding?
    ensures Full(After(s, Continue(junk)))
  {
    hide GetSectorEnd, Buffer, Covers, Ordered;
    SectorEndCovers(s.sectors, s.pc.at);
    if Choose(s, s.pc.at, s.pc.count).Whole? {
      ToldKeepsFull(s, s.pc.at, s.pc.count, s.pc.count, junk, After(s, Continue(junk)));
    }
  }

  lemma LocalKeepsFull(s: State, junk: int -> Byte)
    requires Inv(s) && FlagsSound(s) && Full(s) && s.pc.Local?
    ensures Full(After(s, Continue(junk)))
  {
    hide GetSectorEnd, Buffer, Covers, Ordered;
    SectorEndCovers(s.sectors, s.pc.at);
    var n := LocalSize(s.sectors, s.pc.at, s.pc.count);
    ToldKeepsFull(s, s.pc.at, s.pc.count, n, junk, After(s, Continue(junk)));
  }

  lemma AnswerKeepsFull(s: State, junk: int -> Byte)
    requires Inv(s) && Full(s) && s.pc.Committed?
    ensures Full(After(s, Continue(junk)))
  {
    hide GetSectorEnd, Buffer, Covers, Ordered;
    var n := ServedAfterReply(s.sectors, s.offset, s.pc.count);
    ToldKeepsFull(s, s.offset, s.pc.count, n, junk, After(s, Continue(junk)));
  }

  lemma InsertKeepsFull(s: State, junk: int -> Byte)
    requires Inv(s) && FlagsSound(s) && Full(s) && s.pc.Sizing?
    ensures Full(After(s, Continue(junk)))
  {
    hide Covers, GetSectorEnd, Insert;
    var a, b := s.offset, s.offset + s.pc.n;
    InsertFileSize(s.sectors, a, b);
    InsertedEnd(s.sectors, a, b);
    InsertOrdered(s.sectors, a, b);
    SectorEndCovers(Insert(s.sectors, a, b), a);
  }

  /** The samples of the home reach far enough. */
  lemma HomeReaches(s: State, junk: int -> Byte)
    requires Full(s) && FlagsSound(s) && AtHome(s.pc) && CanHappen(s, Continue(junk))
    ensures SamplesReach(After(s, Continue(junk)))
  {
    hide GetSectorEnd, Insert, Put, Buffer, FileSize, AnswersReach, Choose, ReplicaStep;
  }

  lemma LookReaches(s: State, junk: int -> Byte)
    requires Full(s) && FlagsSound(s) && SamplesSound(s)
    requires (Looks(s.pc) || s.pc.Replied?) && CanHappen(s, Continue(junk)) && Orderly(s, Continue(junk))
    ensures SamplesReach(After(s, Continue(junk)))
  {
    hide GetSectorEnd, Insert, Put, Buffer, FileSize, AnswersReach;
    if AtHome(s.pc) { HomeReaches(s, junk); }
  }

  lemma LookKeepsFull(s: State, junk: int -> Byte)
    requires Full(s) && FlagsSound(s) && SamplesSound(s)
    requires (Looks(s.pc) || s.pc.Replied?) && CanHappen(s, Continue(junk)) && Orderly(s, Continue(junk))
    ensures Full(After(s, Continue(junk)))
  {
    LookReaches(s, junk);
    hide GetSectorEnd, Insert, Put, Buffer, FileSize, SamplesReach, CanHappen;
    if Looks(s.pc) { LookLeavesBytes(s, junk); }
  }

  lemma OthersKeepFull(s: State, e: Event)
    requires Full(s) && FlagsSound(s) && SamplesSound(s) && CanHappen(s, e) && Orderly(s, e) && !e.Continue?
    ensures Full(After(s, e))
  {
    hide GetSectorEnd, Insert, Put, Buffer, FileSize, AfterContinue;
  }

  lemma StepKeepsFull(s: State, e: Event)
    requires Inv(s) && FlagsSound(s) && Full(s) && CanHappen(s, e) && Orderly(s, e)
    ensures NoGap(s, e) && Full(After(s, e))
  {
    assert SamplesSound(s) && Ordered(s.sectors) && Tight(s, e);
    hide Full, Inv, After, FlagsSound, SamplesSound, Ordered, Orderly, Tight, CanHappen;
    FullHasNoGap(s, e);
    if !e.Continue? {
      OthersKeepFull(s, e);
    } else if s.pc.Deciding? {
      DecideKeepsFull(s, e.junk);
    } else if s.pc.Local? {
      LocalKeepsFull(s, e.junk);
    } else if s.pc.Sizing? {
      InsertKeepsFull(s, e.junk);
    } else if s.pc.Committed? {
      AnswerKeepsFull(s, e.junk);
    } else {
      ContinueIsBusy(s, e);
      LookKeepsFull(s, e.junk);
    }
  }

  lemma ContinueIsBusy(s: State, e: Event)
    requires CanHappen(s, e) && e.Continue?
    ensures !s.pc.Idle?
  {
  }

  // ---------------------------------------------------------------------------
  // Moves before calls: every read is where the client is
  // ---------------------------------------------------------------------------

  /** The client asks for nothing while a move is due. */
  ghost predicate Prompt(s: State, e: Event) {
    e.Seek? || e.Read? ==> s.late.Done?
  }

  /** Where the read under way takes its bytes from. */
  ghost function Place(s: State): nat {
    match s.pc
    case Idle => s.position
    case Storing(_, _, _, _) => s.offset
    case Sizing(_, _, _) => s.offset
    case Inserted(_, _) => s.offset
    case Committed(_) => s.offset
    case _ => s.pc.at
  }

  /** The offset is where the client is, or moves there next; so is the read under way, and was every answer. */
  ghost predicate InStep(s: State) {
    && (s.late.Done? ==> s.offset == s.position)
    && (s.late.Due? ==> s.late.to == s.position && s.pc.Idle?)
    && Place(s) == s.position
    && (forall i :: 0 <= i < |s.answers| ==> s.answers[i].asked == s.answers[i].offset)
  }

  /** What a step of the read does to the offset, the client and the answers. */
  ghost predicate Advances(s: State, t: State) {
    if t.pc.Idle? then
      && |t.answers| == |s.answers| + 1 && t.answers[..|s.answers|] == s.answers
      && t.answers[|s.answers|].asked == s.position && t.answers[|s.answers|].offset == Place(s)
      && t.position == Place(s) + |t.answers[|s.answers|].data|
      && (|| t.late == Due(t.position)
          || (t.late == s.late && t.offset == t.position)
          || (t.late == s.late && t.offset == s.offset && t.position == Place(s)))
    else
      && t.answers == s.answers && t.position == s.position && t.late == s.late && t.offset == s.offset
      && (Place(t) == Place(s) || Place(t) == s.offset)
  }

  lemma AnswerAdvances(s: State, junk: int -> Byte)
    requires s.pc.Deciding? || s.pc.Local? || s.pc.Committed?
    ensures Advances(s, After(s, Continue(junk)))
  {
    hide GetSectorEnd, Insert, Put;
  }

  lemma ContinueAdvances(s: State, junk: int -> Byte)
    requires CanHappen(s, Continue(junk))
    ensures Advances(s, After(s, Continue(junk)))
  {
    hide GetSectorEnd, Insert, Put, Buffer;
    if s.pc.Deciding? || s.pc.Local? || s.pc.Committed? { AnswerAdvances(s, junk); }
  }

  lemma StepKeepsInStep(s: State, e: Event)
    requires InStep(s) && CanHappen(s, e) && Prompt(s, e)
    ensures InPlace(s, e) && Steady(s, e) && InStep(After(s, e))
  {
    hide AfterContinue;
    if e.Continue? {
      ContinueAdvances(s, e.junk);
      AdvanceKeepsInStep(s, After(s, e));
    }
  }

  lemma AdvanceKeepsInStep(s: State, t: State)
    requires InStep(s) && !s.pc.Idle? && Advances(s, t)
    ensures InStep(t)
  {
    hide Place;
    if t.pc.Idle? { IdlePlace(t); }
    forall i | 0 <= i < |t.answers| ensures t.answers[i].asked == t.answers[i].offset {
      if i < |s.answers| { assert t.answers[i] == s.answers[i]; }
    }
  }

  lemma IdlePlace(s: State)
    requires s.pc.Idle?
    ensures Place(s) == s.position
  {
  }

  // ---------------------------------------------------------------------------
  // Runs
  // ---------------------------------------------------------------------------

  ghost predicate IsRun(s: State, run: seq<Event>)
    decreases |run|
  {
    run == [] || (CanHappen(s, run[0]) && IsRun(After(s, run[0]), run[1..]))
  }

  ghost function Final(s: State, run: seq<Event>): State
    requires IsRun(s, run)
    decreases |run|
  {
    if run == [] then s else Final(After(s, run[0]), run[1..])
  }

  ghost predicate Throughout(s: State, run: seq<Event>, good: (State, Event) -> bool)
    requires IsRun(s, run)
    decreases |run|
  {
    run == [] || (good(s, run[0]) && Throughout(After(s, run[0]), run[1..], good))
  }

  ghost predicate NoSeek(run: seq<Event>) {
    forall i :: 0 <= i < |run| ==> !run[i].Seek?
  }

  ghost predicate Start(s: State) {
    && s.sectors == [] && s.cells == map[] && !s.replicaCommitted && s.offset == s.position == 0 && s.late.Done?
    && s.pc.Idle? && s.answers == []
  }

  lemma StartsRight(s: State)
    requires Start(s)
    ensures Inv(s) && FlagsSound(s) && InStep(s) && Full(s)
  {
  }

  lemma {:induction false} RunKeepsInv(s: State, run: seq<Event>)
    requires Inv(s) && IsRun(s, run) && Throughout(s, run, (t, e) => NoGap(t, e) && InPlace(t, e))
    ensures Inv(Final(s, run))
    decreases |run|
  {
    if run != [] {
      StepKeepsInv(s, run[0]);
      RunKeepsInv(After(s, run[0]), run[1..]);
    }
  }

  /**
   If no reply claims a gap, and each is stored at the offset that its request carried, the replica holds
   and answers nothing but home bytes.
   */
  lemma ReplicaAgreement(s: State, run: seq<Event>)
    requires Start(s) && IsRun(s, run) && Throughout(s, run, (t, e) => NoGap(t, e) && InPlace(t, e))
    ensures Agrees(Final(s, run)) && AnswersRight(Final(s, run))
  {
    StartsRight(s);
    RunKeepsInv(s, run);
  }

  predicate Commits(run: seq<Event>) {
    exists i :: 0 <= i < |run| && run[i].Commit?
  }

  function Appended(run: seq<Event>): Data {
    if run == [] then [] else (if run[0].Append? then run[0].d else []) + Appended(run[1..])
  }

  lemma StepWrites(s: State, e: Event)
    requires CanHappen(s, e)
    ensures var t := After(s, e);
            (t.committed <==> s.committed || e.Commit?) && t.bytes == s.bytes + (if e.Append? then e.d else [])
  {
    hide ReplicaStep;
    if e.Continue? && !AtHome(s.pc) { ReplicaStepFollows(s, e.junk); }
  }

  /** Over every run, the home file is what its writers append and their commit make it. */
  lemma {:induction false} HomeIsItsWriters(s: State, run: seq<Event>)
    requires IsRun(s, run)
    ensures var t := Final(s, run);
            (t.committed <==> s.committed || Commits(run)) && t.bytes == s.bytes + Appended(run)
    decreases |run|
  {
    if run != [] {
      hide Commits, CanHappen, After;
      StepWrites(s, run[0]);
      HomeIsItsWriters(After(s, run[0]), run[1..]);
      CommitsSplit(run);
      assert After(s, run[0]).bytes + Appended(run[1..]) == s.bytes + Appended(run);
    } else {
      assert !Commits(run);
    }
  }

  lemma CommitsSplit(run: seq<Event>)
    requires run != []
    ensures Commits(run) <==> run[0].Commit? || Commits(run[1..])
  {
    if Commits(run) {
      var i :| 0 <= i < |run| && run[i].Commit?;
      assert i > 0 ==> run[1..][i - 1].Commit?;
    }
    if Commits(run[1..]) {
      var i :| 0 <= i < |run[1..]| && run[1..][i].Commit?;
      assert run[i + 1].Commit?;
    }
  }

  lemma {:induction false} RunKeepsFlags(s: State, run: seq<Event>)
    requires FlagsSound(s) && IsRun(s, run) && Throughout(s, run, (t, e) => Closed(t, e))
    ensures FlagsSound(Final(s, run))
    decreases |run|
  {
    if run != [] {
      StepKeepsFlags(s, run[0]);
      RunKeepsFlags(After(s, run[0]), run[1..]);
    }
  }

  /** Whatever the calls and the moves, a replica that calls the file committed knows its final size. */
  lemma FlagAgreement(s: State, run: seq<Event>)
    requires Start(s) && IsRun(s, run) && Throughout(s, run, (t, e) => Closed(t, e))
    ensures FlagIsFinal(Final(s, run))
  {
    StartsRight(s);
    RunKeepsFlags(s, run);
  }

  ghost predicate AllGood(s: State) {
    Inv(s) && FlagsSound(s) && Full(s)
  }

  lemma StepKeepsGood(s: State, e: Event)
    requires AllGood(s) && CanHappen(s, e) && Orderly(s, e)
    ensures AllGood(After(s, e))
  {
    hide Inv, FlagsSound, Full, After, CanHappen;
    StepKeepsFull(s, e);
    StepKeepsFlags(s, e);
    StepKeepsInv(s, e);
  }

  lemma {:induction false} RunKeepsGood(s: State, run: seq<Event>)
    requires AllGood(s) && IsRun(s, run) && Throughout(s, run, (t, e) => Orderly(t, e))
    ensures AllGood(Final(s, run))
    decreases |run|
  {
    hide AllGood, After, CanHappen, Orderly;
    if run != [] {
      StepKeepsGood(s, run[0]);
      RunKeepsGood(After(s, run[0]), run[1..]);
    }
  }

  /**
   Every answer is exact, and short only at the end of a committed file or at the prefetch limit; without
   a limit, only at the end of a committed file.
   */
  lemma RemoteReadsAreExact(s: State, run: seq<Event>)
    requires Start(s) && IsRun(s, run) && Throughout(s, run, (t, e) => Orderly(t, e))
    ensures var t := Final(s, run);
            && t.cap == s.cap && Agrees(t) && FlagIsFinal(t) && AnswersRight(t) && AnswersReach(t)
            && (s.cap == 0 ==> AnswersComplete(t))
  {
    StartsRight(s);
    RunKeepsGood(s, run);
    RunKeepsLimit(s, run);
  }

  // ---------------------------------------------------------------------------
  // The prefetch limit
  // ---------------------------------------------------------------------------

  /** What the home has sampled, and what it sends, is no more than the limit. */
  ghost predicate WithinLimit(s: State) {
    s.cap != 0 ==>
      && ((s.pc.Counted? || s.pc.Measured?) ==> s.pc.n <= s.cap)
      && (s.pc.Replied? ==> |s.pc.data| <= s.cap)
  }

  lemma StepKeepsLimit(s: State, e: Event)
    requires WithinLimit(s) && CanHappen(s, e)
    ensures WithinLimit(After(s, e)) && After(s, e).cap == s.cap
  {
    LimitStays(s, e);
    hide GetSectorEnd, Insert, Put, Buffer, Told, Choose, LocalSize, ServedAfterReply;
    if e.Continue? && !AtHome(s.pc) {
      hide HomeStep, ReplicaStep;
      ReplicaStepFollows(s, e.junk);
    }
  }

  lemma {:induction false} RunKeepsLimit(s: State, run: seq<Event>)
    requires WithinLimit(s) && IsRun(s, run)
    ensures WithinLimit(Final(s, run)) && Final(s, run).cap == s.cap
    decreases |run|
  {
    if run != [] {
      hide After, CanHappen, WithinLimit;
      StepKeepsLimit(s, run[0]);
      RunKeepsLimit(After(s, run[0]), run[1..]);
    }
  }

  /** Over every run, whatever the calls, a reply carries no more than the limit. */
  lemma RepliesAreLimited(s: State, run: seq<Event>)
    requires Start(s) && IsRun(s, run)
    ensures var t := Final(s, run); s.cap != 0 && t.pc.Replied? ==> |t.pc.data| <= s.cap
  {
    RunKeepsLimit(s, run);
  }


  lemma {:induction false} RunKeepsInStep(s: State, run: seq<Event>)
    requires InStep(s) && IsRun(s, run) && Throughout(s, run, (t, e) => Prompt(t, e))
    ensures Throughout(s, run, (t, e) => InPlace(t, e)) && Throughout(s, run, (t, e) => Steady(t, e))
    ensures InStep(Final(s, run))
    decreases |run|
  {
    if run != [] {
      StepKeepsInStep(s, run[0]);
      RunKeepsInStep(After(s, run[0]), run[1..]);
    }
  }

  lemma {:induction false} OrderlyThroughout(s: State, run: seq<Event>)
    requires IsRun(s, run)
    requires Throughout(s, run, (t, e) => WithinFile(t, e)) && Throughout(s, run, (t, e) => Closed(t, e))
    requires Throughout(s, run, (t, e) => InPlace(t, e)) && Throughout(s, run, (t, e) => Steady(t, e))
    requires Throughout(s, run, (t, e) => Tight(t, e))
    ensures Throughout(s, run, (t, e) => Orderly(t, e))
    decreases |run|
  {
    if run != [] { OrderlyThroughout(After(s, run[0]), run[1..]); }
  }

  /**
   If moreover every move comes before the next call, the same holds, and every answer is of the bytes at
   the position of the client.
   */
  lemma PromptReadsAreExact(s: State, run: seq<Event>)
    requires Start(s) && IsRun(s, run) && Throughout(s, run, (t, e) => Prompt(t, e))
    requires Throughout(s, run, (t, e) => WithinFile(t, e)) && Throughout(s, run, (t, e) => Closed(t, e))
    requires s.cap == 0 || Throughout(s, run, (t, e) => NoGap(t, e))
    ensures var t := Final(s, run);
            && t.cap == s.cap && Agrees(t) && FlagIsFinal(t) && AnswersRight(t) && AnswersReach(t)
            && (s.cap == 0 ==> AnswersComplete(t))
            && forall i :: 0 <= i < |t.answers| ==> t.answers[i].offset == t.answers[i].asked
  {
    StartsRight(s);
    RunKeepsInStep(s, run);
    TightThroughout(s, run);
    OrderlyThroughout(s, run);
    RemoteReadsAreExact(s, run);
  }

  lemma {:induction false} TightThroughout(s: State, run: seq<Event>)
    requires IsRun(s, run) && (s.cap == 0 || Throughout(s, run, (t, e) => NoGap(t, e)))
    ensures Throughout(s, run, (t, e) => Tight(t, e))
    decreases |run|
  {
    if run != [] {
      hide CanHappen, NoGap, AfterContinue;
      LimitStays(s, run[0]);
      TightThroughout(After(s, run[0]), run[1..]);
    }
  }

  lemma LimitStays(s: State, e: Event)
    requires CanHappen(s, e)
    ensures After(s, e).cap == s.cap
  {
    hide GetSectorEnd, Insert, Put, Buffer, HomeStep;
  }

  // ---------------------------------------------------------------------------
  // A reader that does not seek, with any prefetch limit
  // ---------------------------------------------------------------------------

  /** One piece of the file from its start, up to the position of the client or further. */
  ghost predicate FromStart(s: State) {
    Ordered(s.sectors) && (forall i :: 0 <= i < |s.sectors| ==> s.sectors[i].start == 0)
    && s.position <= FileSize(s.sectors)
  }

  lemma InsertFromStart(s: seq<Sector>, a: nat, b: nat)
    requires Ordered(s) && a <= b && a <= FileSize(s) && forall i :: 0 <= i < |s| ==> s[i].start == 0
    ensures !ClaimsGap(s, a, b)
    ensures var r := Insert(s, a, b);
            Ordered(r) && FileSize(r) >= FileSize(s) && forall i :: 0 <= i < |r| ==> r[i].start == 0
  {
    MergedEndIsMax(s, a, b);
    InsertOrdered(s, a, b);
    InsertFileSize(s, a, b);
    var first, last, lo, hi := InsertShape(s, a, b);
    SpliceElements(s, first, last, Sector(lo, hi));
    if s != [] { assert s[0].end >= a; }
  }

  lemma AnswerKeepsFromStart(s: State, junk: int -> Byte)
    requires FromStart(s) && InStep(s) && (s.pc.Deciding? || s.pc.Local? || s.pc.Committed?)
    ensures FromStart(After(s, Continue(junk)))
  {
    hide GetSectorEnd, Put, Insert, Covers, FileSize;
    SectorEndCovers(s.sectors, Place(s));
  }

  lemma StepKeepsFromStart(s: State, e: Event)
    requires FromStart(s) && InStep(s) && CanHappen(s, e) && !e.Seek?
    ensures NoGap(s, e) && FromStart(After(s, e))
  {
    hide GetSectorEnd, Put, Insert, ClaimsGap, FileSize, Ordered, HomeStep;
    if e.Continue? {
      if s.pc.Deciding? || s.pc.Local? || s.pc.Committed? {
        AnswerKeepsFromStart(s, e.junk);
      } else if s.pc.Sizing? {
        InsertFromStart(s.sectors, s.offset, s.offset + s.pc.n);
      }
    }
  }

  /** Every answer begins where the one before it ended, and the last one ends where the client is. */
  ghost predicate Chained(s: State) {
    && (s.answers == [] ==> s.position == 0)
    && (s.answers != [] ==> s.position == EndOf(s.answers[|s.answers| - 1]) && s.answers[0].offset == 0)
    && (forall i :: 0 < i < |s.answers| ==> s.answers[i].offset == EndOf(s.answers[i - 1]))
  }

  function EndOf(a: Answer): nat { a.offset + |a.data| }

  lemma StepKeepsChained(s: State, e: Event)
    requires Chained(s) && InStep(s) && CanHappen(s, e) && !e.Seek?
    ensures Chained(After(s, e))
  {
    hide AfterContinue;
    if e.Continue? {
      ContinueAdvances(s, e.junk);
      hide Place;
      var t := After(s, e);
      forall i | 0 < i < |t.answers| ensures t.answers[i].offset == EndOf(t.answers[i - 1]) {
        assert i - 1 < |s.answers| ==> t.answers[i - 1] == s.answers[i - 1];
        if i < |s.answers| { assert t.answers[i] == s.answers[i]; }
      }
      if t.pc.Idle? && s.answers != [] { assert t.answers[0] == s.answers[0]; }
    }
  }

  lemma {:induction false} RunKeepsFromStart(s: State, run: seq<Event>)
    requires FromStart(s) && Chained(s) && InStep(s) && IsRun(s, run)
    requires Throughout(s, run, (t, e) => Prompt(t, e)) && NoSeek(run)
    ensures Throughout(s, run, (t, e) => NoGap(t, e)) && Throughout(s, run, (t, e) => WithinFile(t, e))
    ensures Chained(Final(s, run))
    decreases |run|
  {
    if run != [] {
      assert !run[0].Seek?;
      hide FromStart, InStep, Chained, CanHappen, NoGap, After;
      StepKeepsFromStart(s, run[0]);
      StepKeepsChained(s, run[0]);
      StepKeepsInStep(s, run[0]);
      RunKeepsFromStart(After(s, run[0]), run[1..]);
    }
  }

  /** All that the client has been given. */
  function ReadSoFar(answers: seq<Answer>): Data {
    if answers == [] then [] else ReadSoFar(answers[..|answers| - 1]) + answers[|answers| - 1].data
  }

  lemma {:induction false} ChainedBytes(bytes: Data, answers: seq<Answer>)
    requires forall i :: 0 <= i < |answers| ==> IsHome(bytes, answers[i].offset, answers[i].data)
    requires answers != [] ==> answers[0].offset == 0
    requires forall i :: 0 < i < |answers| ==> answers[i].offset == EndOf(answers[i - 1])
    ensures var n := if answers == [] then 0 else EndOf(answers[|answers| - 1]);
            n <= |bytes| && ReadSoFar(answers) == bytes[..n]
    decreases |answers|
  {
    if answers != [] {
      var k := |answers| - 1;
      ChainedBytes(bytes, answers[..k]);
      var a := answers[k];
      assert IsHome(bytes, a.offset, a.data);
      assert bytes[..a.offset] + a.data == bytes[..a.offset + |a.data|];
    }
  }

  /**
   With any prefetch limit: a client that does not seek, and asks for nothing while a move is due, is
   given the home file from its start, each byte once and in order, and nothing else.
   */
  lemma SequentialReadsAreExact(s: State, run: seq<Event>)
    requires Start(s) && IsRun(s, run) && Throughout(s, run, (t, e) => Prompt(t, e))
    requires Throughout(s, run, (t, e) => Closed(t, e)) && NoSeek(run)
    ensures var t := Final(s, run);
            && t.cap == s.cap && Agrees(t) && FlagIsFinal(t) && AnswersReach(t)
            && t.position <= |t.bytes| && ReadSoFar(t.answers) == t.bytes[..t.position]
  {
    StartsRight(s);
    RunKeepsFromStart(s, run);
    PromptReadsAreExact(s, run);
    var t := Final(s, run);
    ChainedBytes(t.bytes, t.answers);
  }

  // ---------------------------------------------------------------------------
  // A replica learns the commit, and then serves on its own what it can
  // ---------------------------------------------------------------------------

  /** The read under way brings the commit to the replica. */
  ghost predicate Brings(s: State) {
    match s.pc
    case Asked(_, _) => true
    case Sized(_, _, _) => true
    case Waiting(_, _) => true
    case Serving(_, _) => true
    case Flagged(_, _, complete) => complete
    case Counted(_, _, complete, _) => complete
    case Measured(_, _, complete, _, _) => complete
    case Replied(_, _, complete, _, _) => complete
    case Storing(_, complete, _, _) => complete
    case Sizing(_, complete, _) => complete
    case Inserted(_, complete) => complete
    case Committed(_) => s.replicaCommitted
    case _ => false
  }

  ghost predicate Learning(s: State, n: nat) {
    FlagsSound(s) && s.committed && |s.answers| >= n && (if |s.answers| == n then Brings(s) else s.replicaCommitted)
  }

  lemma StepKeepsLearning(s: State, e: Event, n: nat)
    requires Learning(s, n) && CanHappen(s, e) && Closed(s, e)
    ensures Learning(After(s, e), n)
  {
    StepKeepsFlags(s, e);
    hide GetSectorEnd, Insert, Put, Buffer;
  }

  /** Once a read has asked a committed home, its answer leaves the replica committed, for good. */
  lemma {:induction false} CommitIsLearned(s: State, run: seq<Event>, n: nat)
    requires Learning(s, n) && IsRun(s, run) && Throughout(s, run, (t, e) => Closed(t, e))
    ensures Learning(Final(s, run), n)
    ensures |Final(s, run).answers| > n ==> Final(s, run).replicaCommitted
    decreases |run|
  {
    if run != [] {
      hide After, CanHappen, Closed;
      StepKeepsLearning(s, run[0], n);
      CommitIsLearned(After(s, run[0]), run[1..], n);
    }
  }

  /**
   The home is asked iff a byte of the read is missing and the replica does not know that the file ends
   with the sector at the offset.
   */
  lemma HomeIsAskedIff(s: State, at: nat, count: nat)
    requires Ordered(s.sectors)
    ensures Choose(s, at, count).FromHome? <==>
            && Lacks(s.sectors, at, count)
            && !(s.replicaCommitted && s.realSize == Max(0, GetSectorEnd(s.sectors, at)))
  {
    hide GetSectorEnd, Lacks;
    LacksIff(s.sectors, at, count);
    SectorEndCovers(s.sectors, at);
  }

  // ---------------------------------------------------------------------------
  // Every read that the home can serve is answered
  // ---------------------------------------------------------------------------

  /** The steps a read takes at most. */
  function StepsLeft(pc: Pc): nat {
    match pc
    case Idle => 0
    case Deciding(_, _) => 14
    case Rereading(_, _, _) => 13
    case Local(_, _) => 1
    case Asked(_, _) => 12
    case Sized(_, _, _) => 11
    case Waiting(_, _) => 10
    case Serving(_, _) => 9
    case Flagged(_, _, _) => 8
    case Counted(_, _, _, _) => 7
    case Measured(_, _, _, _, _) => 6
    case Replied(_, _, _, _, _) => 5
    case Storing(_, _, _, _) => 4
    case Sizing(_, _, _) => 3
    case Inserted(_, _) => 2
    case Committed(_) => 1
  }

  function OwnSteps(run: seq<Event>): nat {
    if run == [] then 0 else (if run[0].Continue? then 1 else 0) + OwnSteps(run[1..])
  }

  /** The home is committed, or has the bytes that the request under way asks for. */
  ghost predicate Servable(s: State) {
    s.committed ||
    match s.pc
    case Deciding(_, _) => false
    case Rereading(_, _, remote) => !remote
    case Asked(at, count) => at + count <= |s.bytes|
    case Sized(at, count, _) => at + count <= |s.bytes|
    case Waiting(at, count) => at + count <= |s.bytes|
    case _ => true
  }

  ghost predicate SizesSound(s: State) {
    (s.pc.Counted? || s.pc.Measured?) && s.pc.n > 0 ==> s.pc.at + s.pc.n <= |s.bytes|
  }

  /** A step of the read is possible, or the move that the thread of the replies has to make first. */
  ghost predicate CanGoOn(s: State) {
    || (forall junk: int -> Byte :: CanHappen(s, Continue(junk)))
    || (s.pc.Replied? && CanHappen(s, Move))
  }

  /** Only the home can hold a read back, while it has neither the data nor the commit. */
  lemma OnlyTheHomeWaits(s: State)
    requires SizesSound(s) && !s.pc.Idle?
    ensures CanGoOn(s) <==> (s.pc.Waiting? ==> |s.bytes| >= s.pc.at + s.pc.count || s.committed)
  {
    var junk: int -> Byte := _ => 0;
    assert s.pc.Waiting? ==> (CanHappen(s, Continue(junk)) <==> |s.bytes| >= s.pc.at + s.pc.count || s.committed);
  }

  /** A request past the wait is one that the home has the bytes for, or that comes after its commit. */
  ghost predicate HomeReady(s: State) {
    s.pc.Serving? || s.pc.Flagged? || s.pc.Counted? || s.pc.Measured? || s.pc.Replied? ==>
      s.committed || s.pc.at + s.pc.count <= |s.bytes|
  }

  ghost predicate SizeSeen(s: State) {
    s.pc.Sized? && s.pc.available ==> s.pc.at + s.pc.count <= |s.bytes|
  }

  lemma StepKeepsReady(s: State, e: Event)
    requires HomeReady(s) && SizeSeen(s) && CanHappen(s, e)
    ensures HomeReady(After(s, e)) && SizeSeen(After(s, e))
  {
    hide GetSectorEnd, Insert, Put, Buffer, Told, Choose, LocalSize, ServedAfterReply, ReplySize;
    if e.Continue? && !AtHome(s.pc) {
      hide HomeStep, ReplicaStep;
      ReplicaStepFollows(s, e.junk);
    }
  }

  /** Over every run, the home sends nothing before its commit but to a read that it has all the bytes for. */
  lemma {:induction false} HomeServesWhenReady(s: State, run: seq<Event>)
    requires HomeReady(s) && SizeSeen(s) && IsRun(s, run)
    ensures HomeReady(Final(s, run)) && SizeSeen(Final(s, run))
    decreases |run|
  {
    if run != [] {
      hide HomeReady, SizeSeen, CanHappen, After;
      StepKeepsReady(s, run[0]);
      HomeServesWhenReady(After(s, run[0]), run[1..]);
    }
  }

  lemma HomeStepsDrop(s: State, junk: int -> Byte)
    requires CanHappen(s, Continue(junk)) && AtHome(s.pc)
    ensures StepsLeft(After(s, Continue(junk)).pc) < StepsLeft(s.pc)
    ensures SizesSound(s) && Servable(s) ==> SizesSound(After(s, Continue(junk))) && Servable(After(s, Continue(junk)))
  {
    hide ReplicaStep;
  }

  /** The step that comes after each step at the replica. */
  ghost predicate Follows(pc: Pc, next: Pc) {
    match pc
    case Deciding(_, _) => next.Idle? || next.Rereading?
    case Rereading(_, _, remote) => if remote then next.Asked? else next.Local?
    case Replied(_, _, _, _, _) => next.Storing?
    case Storing(_, _, _, _) => next.Sizing?
    case Sizing(_, _, _) => next.Inserted?
    case Inserted(_, _) => next.Committed?
    case Local(_, _) => next.Idle?
    case Committed(_) => next.Idle?
    case _ => false
  }

  lemma ReplicaStepFollows(s: State, junk: int -> Byte)
    requires !s.pc.Idle? && !AtHome(s.pc)
    ensures var t := ReplicaStep(s, junk);
            t.bytes == s.bytes && t.committed == s.committed && Follows(s.pc, t.pc)
  {
    hide GetSectorEnd, Insert, Put, Choose, Told, LocalSize, ServedAfterReply;
    match s.pc
    case Deciding(at, count) => ToldIsIdle(s, at, count, count, junk);
    case Local(at, count) => ToldIsIdle(s, at, count, LocalSize(s.sectors, at, count), junk);
    case Committed(count) => ToldIsIdle(s, s.offset, count, ServedAfterReply(s.sectors, s.offset, count), junk);
    case _ =>
  }

  lemma ToldIsIdle(s: State, at: nat, count: nat, n: nat, junk: int -> Byte)
    ensures var t := Told(s, at, count, n, junk); t.pc.Idle? && t.bytes == s.bytes && t.committed == s.committed
  {
  }

  lemma ReplicaStepsDrop(s: State, junk: int -> Byte)
    requires CanHappen(s, Continue(junk)) && !AtHome(s.pc)
    ensures StepsLeft(After(s, Continue(junk)).pc) < StepsLeft(s.pc)
    ensures Servable(s) ==> SizesSound(After(s, Continue(junk))) && Servable(After(s, Continue(junk)))
  {
    hide ReplicaStep, HomeStep;
    ReplicaStepFollows(s, junk);
  }

  lemma ServableStep(s: State, e: Event)
    requires !s.pc.Idle? && SizesSound(s) && Servable(s) && CanHappen(s, e)
    ensures SizesSound(After(s, e)) && Servable(After(s, e))
    ensures if e.Continue? then StepsLeft(After(s, e).pc) < StepsLeft(s.pc) else After(s, e).pc == s.pc
    ensures |After(s, e).answers| == |s.answers| + (if After(s, e).pc.Idle? then 1 else 0)
  {
    hide AfterContinue, Place;
    if e.Continue? {
      if AtHome(s.pc) { HomeStepsDrop(s, e.junk); } else { ReplicaStepsDrop(s, e.junk); }
      ContinueAdvances(s, e.junk);
    }
  }

  lemma {:induction false} AnswersGrow(s: State, run: seq<Event>)
    requires IsRun(s, run)
    ensures |Final(s, run).answers| >= |s.answers|
    decreases |run|
  {
    if run != [] {
      hide AfterContinue, Place;
      if run[0].Continue? { ContinueAdvances(s, run[0].junk); }
      AnswersGrow(After(s, run[0]), run[1..]);
    }
  }

  /**
   Over every run, a read that the home can serve is answered, or can go on and has taken that many fewer
   of its at most fourteen steps.
   */
  lemma {:induction false} ServableReadIsAnswered(s: State, run: seq<Event>)
    requires !s.pc.Idle? && SizesSound(s) && Servable(s) && IsRun(s, run)
    ensures var t := Final(s, run);
            || |t.answers| > |s.answers|
            || (!t.pc.Idle? && CanGoOn(t) && OwnSteps(run) + StepsLeft(t.pc) <= StepsLeft(s.pc) <= 14)
    decreases |run|
  {
    if run != [] {
      ServableStep(s, run[0]);
      var t := After(s, run[0]);
      if t.pc.Idle? {
        AnswersGrow(t, run[1..]);
      } else {
        ServableReadIsAnswered(t, run[1..]);
      }
    }
  }

  // ---------------------------------------------------------------------------
  // Calls made before the move
  // ---------------------------------------------------------------------------

  /** A read begins where the client is; after a seek the move leaves the offset where it was set. */
  ghost predicate Honoured(s: State, e: Event)
    requires CanHappen(s, e) && s.late.Due?
  {
    && (e.Read? ==> After(s, e).pc.at == s.position)
    && (e.Seek? ==> After(After(s, e), Move).offset == e.target)
  }

  /**
   A call made between the answer and the move of a fetched read is honoured iff it is a read and the
   answer was empty, or a seek to where the answer ended.
   */
  lemma LateCallIff(s: State, junk: int -> Byte, e: Event)
    requires s.pc.Committed? && s.late.Done? && (e.Read? || e.Seek?)
    ensures var t := After(s, Continue(junk));
            var n := ServedAfterReply(s.sectors, s.offset, s.pc.count);
            && CanHappen(t, e) && t.late.Due? && |t.answers[|s.answers|].data| == n
            && (Honoured(t, e) <==> if e.Read? then n == 0 else e.target == s.offset + n)
  {
    hide GetSectorEnd;
  }

  // ---------------------------------------------------------------------------
  // Runs that show what the conditions are for
  // ---------------------------------------------------------------------------

  ghost function Next(): Event { Continue(_ => 0) }

  lemma {:induction false} RunExtends(s: State, run: seq<Event>, e: Event)
    requires IsRun(s, run) && CanHappen(Final(s, run), e)
    ensures IsRun(s, run + [e]) && Final(s, run + [e]) == After(Final(s, run), e)
    decreases |run|
  {
    var longer := run + [e];
    if run != [] {
      RunExtends(After(s, run[0]), run[1..], e);
      assert longer[1..] == run[1..] + [e];
    }
  }

  lemma RunThen(s: State, run: seq<Event>, e: Event) returns (longer: seq<Event>)
    requires IsRun(s, run) && CanHappen(Final(s, run), e)
    ensures IsRun(s, longer) && Final(s, longer) == After(Final(s, run), e)
    ensures NoSeek(run) && !e.Seek? ==> NoSeek(longer)
  {
    RunExtends(s, run, e);
    longer := run + [e];
  }

  lemma NoEvents(s: State)
    ensures IsRun(s, []) && Final(s, []) == s
  {
  }

  /** A read that the replica cannot serve is sent to the home. */
  lemma AskRun(s: State, run: seq<Event>, count: nat) returns (longer: seq<Event>)
    requires IsRun(s, run) && Final(s, run).pc.Idle?
    requires Choose(Final(s, run), Final(s, run).offset, count).FromHome?
    ensures IsRun(s, longer) && Final(s, longer) == Final(s, run).(pc := Asked(Final(s, run).offset, count))
    ensures NoSeek(run) ==> NoSeek(longer)
  {
    hide NoSeek, IsRun, Final, GetSectorEnd, Put, Insert, Buffer, HomeStep;
    longer := RunThen(s, run, Read(count));
    longer := RunThen(s, longer, Next());
    longer := RunThen(s, longer, Next());
  }

  ghost function ReplyData(s: State, at: nat): Data {
    var n := ReplySize(|s.bytes|, at, s.cap);
    if n == 0 then [] else s.bytes[at..at + n]
  }

  lemma ReplySizeFits(stored: nat, offset: nat, cap: nat)
    ensures var n := ReplySize(stored, offset, cap); n > 0 ==> offset + n <= stored
  {
  }

  /** A request that the home can serve at once. */
  lemma AdmitRun(s: State, run: seq<Event>) returns (longer: seq<Event>)
    requires IsRun(s, run) && Final(s, run).pc.Asked?
    requires var t := Final(s, run); t.committed || (t.firable && t.pc.at + t.pc.count <= |t.bytes|)
    ensures IsRun(s, longer) && (NoSeek(run) ==> NoSeek(longer))
    ensures var t := Final(s, run); Final(s, longer) == t.(pc := Flagged(t.pc.at, t.pc.count, t.committed))
  {
    hide NoSeek, IsRun, Final, ReplicaStep;
    longer := RunThen(s, run, Next());
    longer := RunThen(s, longer, Next());
    longer := RunThen(s, longer, Next());
  }

  /** The bytes are sampled and sent. */
  lemma SampleRun(s: State, run: seq<Event>) returns (longer: seq<Event>)
    requires IsRun(s, run) && Final(s, run).pc.Flagged?
    ensures IsRun(s, longer) && (NoSeek(run) ==> NoSeek(longer))
    ensures var t := Final(s, run);
            Final(s, longer) == t.(pc := Replied(t.pc.at, t.pc.count, t.pc.complete, ReplyData(t, t.pc.at), |t.bytes|))
  {
    hide NoSeek, IsRun, Final, ReplicaStep, ReplySize;
    ReplySizeFits(|Final(s, run).bytes|, Final(s, run).pc.at, Final(s, run).cap);
    longer := RunThen(s, run, Next());
    longer := RunThen(s, longer, Next());
    longer := RunThen(s, longer, Next());
  }

  lemma ServeRun(s: State, run: seq<Event>) returns (longer: seq<Event>)
    requires IsRun(s, run) && Final(s, run).pc.Asked?
    requires var t := Final(s, run); t.committed || (t.firable && t.pc.at + t.pc.count <= |t.bytes|)
    ensures IsRun(s, longer) && (NoSeek(run) ==> NoSeek(longer))
    ensures var t := Final(s, run);
            Final(s, longer) == t.(pc := Replied(t.pc.at, t.pc.count, t.committed, ReplyData(t, t.pc.at), |t.bytes|))
  {
    hide NoSeek, IsRun, Final;
    longer := AdmitRun(s, run);
    longer := SampleRun(s, longer);
  }

  /** A reply is stored. */
  lemma StoreRun(s: State, run: seq<Event>) returns (longer: seq<Event>)
    requires IsRun(s, run) && Final(s, run).pc.Replied? && Final(s, run).late.Done?
    ensures IsRun(s, longer) && Final(s, longer) == WithReply(Final(s, run))
    ensures NoSeek(run) ==> NoSeek(longer)
  {
    hide NoSeek, IsRun, Final, GetSectorEnd, Put, Insert, Buffer, HomeStep;
    longer := RunThen(s, run, Next());
    longer := RunThen(s, longer, Next());
    longer := RunThen(s, longer, Next());
  }

  /** And the client has its answer; the offset stays. */
  lemma AnswerRun(s: State, run: seq<Event>) returns (longer: seq<Event>)
    requires IsRun(s, run) && Final(s, run).pc.Inserted?
    ensures IsRun(s, longer) && (NoSeek(run) ==> NoSeek(longer))
    ensures var t := Final(s, run);
            var n := ServedAfterReply(t.sectors, t.offset, t.pc.count);
            Final(s, longer) == Told(t, t.offset, t.pc.count, n, _ => 0)
                                .(replicaCommitted := t.pc.complete, late := Due(t.offset + n))
  {
    hide NoSeek, IsRun, Final, GetSectorEnd, Put, Insert, Buffer, HomeStep;
    longer := RunThen(s, run, Next());
    longer := RunThen(s, longer, Next());
  }

  /** A seek to `at` and a read there, up to the answer of a committed home and the move after it. */
  lemma ReadAt(s: State, run: seq<Event>, at: nat) returns (longer: seq<Event>)
    requires IsRun(s, run)
    requires var t := Final(s, run);
             && t.pc.Idle? && t.committed && |t.bytes| > 0 && t.late.Done?
             && (t.replicaCommitted ==> t.realSize == |t.bytes|)
             && GetSectorEnd(t.sectors, at) == SECTOR_NOT_FOUND
    ensures IsRun(s, longer)
    ensures var t := Final(s, run);
            var u := Final(s, longer);
            && u.sectors == Insert(t.sectors, at, at + |ReplyData(t, at)|)
            && u.cells == Put(t.cells, at, ReplyData(t, at)) && u.realSize == |t.bytes|
            && u.pc.Idle? && u.committed && u.bytes == t.bytes && u.cap == t.cap && u.late.Done?
  {
    hide IsRun, Final, GetSectorEnd, Put, Insert, Told, ServedAfterReply, AfterContinue;
    var t := Final(s, run);
    longer := RunThen(s, run, Seek(at));
    longer := AskRun(s, longer, 1);
    longer := ServeRun(s, longer);
    longer := StoreRun(s, longer);
    var u := Final(s, longer);
    longer := AnswerRun(s, longer);
    ToldKeepsReplica(u, u.offset, 1, ServedAfterReply(u.sectors, u.offset, 1));
    longer := RunThen(s, longer, Move);
  }

  lemma ToldKeepsReplica(s: State, at: nat, count: nat, n: nat)
    ensures var t := Told(s, at, count, n, _ => 0); t == s.(pc := Idle, position := t.position, answers := t.answers)
  {
  }

  /** A read at offset 2 and then one at offset 0, of a committed home file. */
  lemma TwoReads(bytes: Data, cap: nat) returns (s: State, run: seq<Event>)
    requires (|bytes| == 3 && cap == 1) || (|bytes| == 1 && cap == 0)
    ensures Start(s) && s.cap == cap && s.bytes == bytes && s.committed && IsRun(s, run)
    ensures !Agrees(Final(s, run))
  {
    hide GetSectorEnd, Insert, Put, IsRun, Final;
    s := State(true, cap, bytes, true, [], map[], 0, false, 0, 0, Done, Idle, []);
    NoEvents(s);
    NothingInEmpty(2);
    run := ReadAt(s, [], 2);
    var d, n := ReplyData(s, 2), |ReplyData(s, 2)|;
    InsertIntoEmpty(2, 2 + n);
    NothingBefore(Sector(2, 2 + n), 0);
    PutAt(map[], 2, d, 1);
    run := ReadAt(s, run, 0);
    PutAt(Put(map[], 2, d), 0, ReplyData(s, 0), 1);
    InsertIntoOne(Sector(2, 2 + n), 0, 1, 1);
    assert Covers(Final(s, run).sectors, 1) && !Right(Final(s, run), 1);
  }

  /** With a prefetch limit, two reads within the file leave a byte in the replica that was never fetched. */
  lemma PrefetchLimitBreaksAgreement(b: Byte) returns (s: State, run: seq<Event>)
    ensures Start(s) && s.cap == 1 && IsRun(s, run) && |s.bytes| == 3 && !Agrees(Final(s, run))
  {
    s, run := TwoReads([b, b, b], 1);
  }

  /** Without one, a read that starts above the end of the home file does. */
  lemma ReadAboveEndBreaksAgreement(b: Byte) returns (s: State, run: seq<Event>)
    ensures Start(s) && s.cap == 0 && IsRun(s, run) && |s.bytes| == 1 && !Agrees(Final(s, run))
  {
    s, run := TwoReads([b], 0);
  }

  /** A home file of one byte, that may be read early. */
  ghost function OneByte(a: Byte): State {
    State(true, 0, [a], false, [], map[], 0, false, 0, 0, Done, Idle, [])
  }

  /** The one byte is fetched and answered, and the offset has yet to move. */
  lemma OneByteFetched(a: Byte) returns (run: seq<Event>)
    ensures IsRun(OneByte(a), run) && NoSeek(run)
    ensures var t := Final(OneByte(a), run);
            t == OneByte(a).(sectors := [Sector(0, 1)], cells := Put(map[], 0, [a]), realSize := 1,
                             position := 1, late := Due(1), answers := [Answer(0, 0, 1, [a])])
  {
    hide GetSectorEnd, Insert, Put, IsRun, Final, AfterContinue;
    var s := OneByte(a);
    NoEvents(s);
    NothingInEmpty(0);
    assert ReplyData(s, 0) == [a];
    run := AskRun(s, [], 1);
    run := ServeRun(s, run);
    run := StoreRun(s, run);
    InsertIntoEmpty(0, 1);
    EndAtSector([Sector(0, 1)], 0, 0);
    run := AnswerRun(s, run);
    PutAt(map[], 0, [a], 0);
    assert Final(s, run).answers[0].data == [a];
  }

  /** A read that comes before the move gets the same byte again. */
  lemma ByteIsReadTwice(a: Byte) returns (run: seq<Event>)
    ensures Start(OneByte(a)) && IsRun(OneByte(a), run) && NoSeek(run)
    ensures Final(OneByte(a), run).answers == [Answer(0, 0, 1, [a]), Answer(1, 0, 1, [a])]
  {
    hide GetSectorEnd, Put, IsRun, Final, HomeStep, NoSeek;
    run := OneByteFetched(a);
    EndAtSector([Sector(0, 1)], 0, 0);
    run := RunThen(OneByte(a), run, Read(1));
    run := RunThen(OneByte(a), run, Next());
    PutAt(map[], 0, [a], 0);
    assert Final(OneByte(a), run).answers[1].data == [a];
  }

  /**
   Without a limit, without a seek, and with reads within a home file that is only appended to: a move that
   comes while the next read is at the home makes its reply land in the wrong place.
   */
  lemma LateMoveMisplacesReply(a: Byte, b: Byte) returns (run: seq<Event>)
    ensures Start(OneByte(a)) && OneByte(a).cap == 0 && IsRun(OneByte(a), run) && NoSeek(run)
    ensures var t := Final(OneByte(a), run);
            t.bytes == [a, b] && !t.committed && t.sectors == [Sector(0, 3)] && !Agrees(t)
  {
    hide GetSectorEnd, Insert, Put, IsRun, Final, AfterContinue;
    var s := OneByte(a);
    run := OneByteFetched(a);
    EndAtSector([Sector(0, 1)], 0, 0);
    run := AskRun(s, run, 2);
    run := RunThen(s, run, Move);
    run := RunThen(s, run, Append([b]));
    run := ServeRun(s, run);
    run := StoreRun(s, run);
    LaterBytesJoin();
    assert ReplyData(OneByte(a).(bytes := [a, b]), 0) == [a, b];
    var t := Final(s, run);
    assert t.sectors[0] == Sector(0, 3);
    assert Covers(t.sectors, 2) && !Right(t, 2);
  }

  lemma LaterBytesJoin()
    ensures Insert([Sector(0, 1)], 1, 3) == [Sector(0, 3)]
  {
    var first, last, lo, hi := InsertShape([Sector(0, 1)], 1, 3);
    MergedEndIsMax([Sector(0, 1)], 1, 3);
  }

  /** A file that may not be read before its commit is sent to another server once it has the bytes asked for. */
  lemma UnfirableIsServedEarly(a: Byte) returns (run: seq<Event>)
    ensures var s := OneByte(a).(firable := false);
            && Start(s) && !s.firable && IsRun(s, run) && NoSeek(run)
            && !Final(s, run).committed && Final(s, run).answers == [Answer(0, 0, 1, [a])]
  {
    hide GetSectorEnd, Insert, Put, IsRun, Final, ReplicaStep, NoSeek;
    var s := OneByte(a).(firable := false);
    NoneSeeks();
    NoEvents(s);
    NothingInEmpty(0);
    run := AskRun(s, [], 1);
    run := RunThen(s, run, Next());
    run := RunThen(s, run, Next());
    run := RunThen(s, run, Next());
    run := RunThen(s, run, Next());
    assert ReplyData(s, 0) == [a];
    run := SampleRun(s, run);
    run := StoreRun(s, run);
    InsertIntoEmpty(0, 1);
    EndAtSector([Sector(0, 1)], 0, 0);
    run := AnswerRun(s, run);
    PutAt(map[], 0, [a], 0);
    assert Final(s, run).answers[0].data == [a];
  }

  lemma NoneSeeks()
    ensures NoSeek([])
  {
  }
}
