/**
 The cached operations of one client thread, and their refinement of plain files: after every
 operation the application has seen exactly what files without caches would have shown it.
 */
module CachedFiles {
  import opened Bytes
  import opened PlainFiles
  import opened CacheViews
  import opened Transport
  import opened Caches

  /**
   What a read did: it waits for data that will never come, or it returned a count after storing
   `buffer` from the start of the caller's buffer.
   */
  datatype Outcome = Blocked | Finished(returned: int, buffer: Data)

  /** The read returned the bytes a plain file returns, and stored nothing past the caller's buffer. */
  ghost predicate Faithful(out: Outcome, expected: Data, count: nat) {
    out.Finished? && out.returned == |expected| && expected <= out.buffer && |out.buffer| <= count
  }

  /**
   When a read is faithful. A read longer than one line past the prefetched bytes asks the queue
   for the prefetched bytes again: that is harmless only if they need no further element and the
   caller's buffer has room for them after the end of the file.
   */
  ghost predicate ReadIsFaithful(p: Plain, line: nat, remaining: nat, fd: int, count: nat)
    requires Wired(p) && fd in p.path && line >= 1
  {
    || remaining == 0
    || count <= remaining + line
    || var n := |PlainRead(FileOf(p, fd), OffsetOf(p, fd) + remaining, count - remaining)|;
       |Lengths(remaining + n, line)| == |Lengths(n, line)| && 2 * remaining + n <= count
  }

  /** The descriptor that the read cache is of, and how many bytes it is ahead of the application. */
  datatype Ahead = Ahead(fd: int, n: nat)

  function AheadOf(v: View): Ahead { Ahead(v.lastFd, |v.unread|) }

  function Held(a: Ahead, fd: int): nat { if a.fd == fd then a.n else 0 }

  /** How far ahead the read cache is after an operation, in terms of what the application sees. */
  ghost function NextAhead(p: Plain, a: Ahead, line: nat, op: Op): Ahead
    requires Allowed(p, op) && line >= 1
  {
    match op
    case Read(fd, count) =>
      var r := Held(a, fd);
      Ahead(fd, if count <= r then r - count
                else if count > r + line then 0
                else Max(0, |PlainRead(FileOf(p, fd), OffsetOf(p, fd) + r, line)| - (count - r)))
    case Write(fd, data) =>
      if fd == a.fd || (a.fd in p.path && p.path[fd] == p.path[a.fd]) then Ahead(a.fd, 0) else a
    case Seek(fd, position) => Ahead(a.fd, 0)
    case Close(fd) => Ahead(a.fd, 0)
    case _ => a
  }

  ghost predicate OpIsFaithful(p: Plain, a: Ahead, line: nat, op: Op)
    requires Allowed(p, op) && line >= 1
  {
    op.Read? ==> ReadIsFaithful(p, line, Held(a, op.fd), op.fd, op.count)
  }

  /** How many operations come before the first read that is not faithful. */
  ghost function FaithfulCount(p: Plain, a: Ahead, line: nat, ops: seq<Op>): (n: nat)
    requires AllAllowed(p, ops) && line >= 1
    ensures n <= |ops|
    decreases |ops|
  {
    if ops == [] || !OpIsFaithful(p, a, line, ops[0]) then 0
    else 1 + FaithfulCount(Next(p, ops[0]), NextAhead(p, a, line, ops[0]), line, ops[1..])
  }

  /** Reads no longer than a line never break a session. */
  lemma {:induction false} ShortReadsAreFaithful(p: Plain, a: Ahead, line: nat, ops: seq<Op>)
    requires AllAllowed(p, ops) && line >= 1
    requires forall i :: 0 <= i < |ops| && ops[i].Read? ==> ops[i].count <= line
    ensures FaithfulCount(p, a, line, ops) == |ops|
    decreases |ops|
  {
    if ops != [] { ShortReadsAreFaithful(Next(p, ops[0]), NextAhead(p, a, line, ops[0]), line, ops[1..]); }
  }

  /** A long read of bytes that are all there, after some of them were prefetched, is never faithful. */
  lemma LongReadMismatch(p: Plain, line: nat, remaining: nat, fd: int, count: nat)
    requires Wired(p) && fd in p.path && line >= 1
    requires remaining > 0 && count > remaining + line && OffsetOf(p, fd) + count <= |FileOf(p, fd)|
    ensures !ReadIsFaithful(p, line, remaining, fd, count)
  {
    assert |PlainRead(FileOf(p, fd), OffsetOf(p, fd) + remaining, count - remaining)| == count - remaining;
  }

  lemma AbsWired(v: View)
    requires Agrees(v)
    ensures Wired(Abs(v)) && Abs(v).path == v.path
  {
  }

  /** What the cache holds for another descriptor does not matter to a read. */
  lemma ReadAhead(p: Plain, a: Ahead, line: nat, fd: int, count: nat)
    requires Allowed(p, Read(fd, count)) && line >= 1
    ensures NextAhead(p, Ahead(fd, Held(a, fd)), line, Read(fd, count)) == NextAhead(p, a, line, Read(fd, count))
  {
  }

  lemma RetargetRead(v: View, fd: int)
    requires Agrees(v) && v.unread == []
    ensures Agrees(v.(lastFd := fd)) && Abs(v.(lastFd := fd)) == Abs(v)
  {
    var w := v.(lastFd := fd);
    forall x | x in w.clientOff ensures BalancedAt(w, x) {
      assert BalancedAt(v, x);
    }
  }

  lemma RetargetWrite(v: View, fd: int)
    requires Agrees(v) && v.pending == []
    ensures Agrees(v.(writeFd := fd)) && Abs(v.(writeFd := fd)) == Abs(v)
  {
    var w := v.(writeFd := fd);
    forall x | x in w.clientOff ensures BalancedAt(w, x) {
      assert BalancedAt(v, x);
    }
  }

  /** The descriptor is open, and the server offset is past the client's by the cached bytes. */
  ghost predicate InSync(v: View, fd: int) {
    && fd in v.path && fd in v.cell && v.path[fd] in v.files
    && v.cell[fd] in v.serverOff && v.cell[fd] in v.clientOff
    && v.serverOff[v.cell[fd]] == v.clientOff[v.cell[fd]] + |v.unread|
  }

  /** What the server sends when asked for `asked` bytes. */
  ghost function Reply(v: View, fd: int, asked: nat): Data
    requires InSync(v, fd)
  {
    PlainRead(v.files[v.path[fd]], v.serverOff[v.cell[fd]], asked)
  }

  /** The view after a read that took the cached bytes and `k` of the bytes of a reply. */
  ghost function ReadPast(v: View, fd: int, reply: Data, k: nat): View
    requires InSync(v, fd) && k <= |reply|
  {
    var c := v.cell[fd];
    v.(unread := reply[k..],
       serverOff := v.serverOff[c := v.serverOff[c] + |reply|],
       clientOff := v.clientOff[c := v.clientOff[c] + |v.unread| + k])
  }

  lemma AgreesInSync(v: View, fd: int)
    requires Agrees(v) && v.pending == [] && fd in v.path && v.lastFd == fd
    ensures InSync(v, fd)
  {
    var c := v.cell[fd];
    assert BalancedAt(v, c);
  }

  lemma ReadPastParts(v: View, fd: int, asked: nat, k: nat)
    requires InSync(v, fd) && v.lastFd == fd && k <= |Reply(v, fd, asked)| && Reply(v, fd, asked) != []
    ensures var w := TakeUnread(v, |v.unread|);
            && w.serverOff[w.cell[fd]] + |Reply(v, fd, asked)| <= |w.files[w.path[fd]]|
            && TakeUnread(Prefetch(w, |Reply(v, fd, asked)|), k) == ReadPast(v, fd, Reply(v, fd, asked), k)
  {
  }

  lemma ReadPastNothing(v: View, fd: int, k: nat)
    requires InSync(v, fd) && v.lastFd == fd && k == 0
    ensures ReadPast(v, fd, [], k) == TakeUnread(v, |v.unread|)
  {
  }

  lemma ReadPastAgrees(v: View, fd: int, asked: nat, k: nat)
    requires Agrees(v) && v.pending == [] && v.lastFd == fd && InSync(v, fd) && k <= |Reply(v, fd, asked)|
    ensures var w := ReadPast(v, fd, Reply(v, fd, asked), k);
            && Agrees(w)
            && Abs(w) == Moved(Abs(v), v.cell[fd], v.clientOff[v.cell[fd]] + |v.unread| + k)
  {
    var reply := Reply(v, fd, asked);
    TakeUnreadAgrees(v, |v.unread|);
    var w := TakeUnread(v, |v.unread|);
    if reply == [] {
      ReadPastNothing(v, fd, k);
    } else {
      ReadPastParts(v, fd, asked, k);
      PrefetchAgrees(w, |reply|);
      TakeUnreadAgrees(Prefetch(w, |reply|), k);
      MovedTwice(Abs(v), v.cell[fd], w.clientOff[v.cell[fd]], w.clientOff[v.cell[fd]] + k);
    }
  }

  /** The view once the write cache is flushed and the read cache is of `fd`. */
  ghost function SwitchTo(v: View, fd: int): View
    requires CanFlushWrite(v) && CanFlushRead(FlushWrite(v))
  {
    var w := FlushWrite(v);
    if w.lastFd == fd then w else FlushRead(w).(lastFd := fd)
  }

  lemma SwitchAgrees(v: View, fd: int)
    requires Agrees(v) && fd in v.path
    ensures CanFlushWrite(v) && CanFlushRead(FlushWrite(v))
    ensures var w := SwitchTo(v, fd);
            && Agrees(w) && Abs(w) == Abs(v)
            && w.pending == [] && w.lastFd == fd && InSync(w, fd) && |w.unread| == Held(AheadOf(v), fd)
  {
    FlushWriteAgrees(v);
    var w := FlushWrite(v);
    if w.lastFd != fd {
      FlushReadAgrees(w);
      RetargetRead(FlushRead(w), fd);
    }
    AgreesInSync(SwitchTo(v, fd), fd);
  }

  // ---------------------------------------------------------------------------
  // What the code does with a view
  // ---------------------------------------------------------------------------

  /** The bytes are in the cache. */
  ghost predicate HitEffect(v: View, w: View, fd: int, count: nat, out: Outcome)
    requires InSync(v, fd) && v.lastFd == fd && count <= |v.unread|
  {
    w == TakeUnread(v, count) && out == Finished(count, v.unread[..count])
  }

  /** The server is asked for a line. */
  ghost predicate PrefetchEffect(v: View, w: View, line: nat, fd: int, count: nat, out: Outcome)
    requires InSync(v, fd) && |v.unread| < count
  {
    var r, reply := |v.unread|, Reply(v, fd, line);
    var k := Min(count - r, |reply|);
    w == ReadPast(v, fd, reply, k) && out == Finished(r + k, v.unread + reply[..k])
  }

  /** The server is asked for what is missing; the queue is asked for the cached bytes again. */
  ghost predicate DirectEffect(v: View, w: View, line: nat, fd: int, count: nat, out: Outcome)
    requires InSync(v, fd) && |v.unread| < count && line >= 1
  {
    var reply := Reply(v, fd, count - |v.unread|);
    DirectOutcome(v.unread, reply, line, out) && (out.Finished? ==> w == ReadPast(v, fd, reply, |reply|))
  }

  ghost predicate DirectOutcome(unread: Data, reply: Data, line: nat, out: Outcome)
    requires line >= 1
  {
    var r, n := |unread|, |reply|;
    && (out.Blocked? <==> |Lengths(r + n, line)| != |Lengths(n, line)|)
    && (out.Finished? ==> out.returned == r + n && |out.buffer| == r + r + n && unread + reply <= out.buffer)
  }

  /** ReadCache::read with the cached line of `fd`: which of its three cases, and their effect. */
  ghost predicate ReadEffect(v: View, w: View, line: nat, fd: int, count: nat, out: Outcome)
    requires InSync(v, fd) && v.lastFd == fd && line >= 1
  {
    if count <= |v.unread| then HitEffect(v, w, fd, count, out)
    else if count - |v.unread| > line then DirectEffect(v, w, line, fd, count, out)
    else PrefetchEffect(v, w, line, fd, count, out)
  }

  // ---------------------------------------------------------------------------
  // Refinement of a plain read
  // ---------------------------------------------------------------------------

  lemma PlainReadNext(p: Plain, fd: int, count: nat, d: Data)
    requires Wired(p) && fd in p.path && d == PlainRead(FileOf(p, fd), OffsetOf(p, fd), count)
    ensures Allowed(p, Read(fd, count))
    ensures Result(p, Read(fd, count)) == d && Next(p, Read(fd, count)) == Moved(p, p.cell[fd], OffsetOf(p, fd) + |d|)
  {
  }

  lemma HitRefines(v: View, w: View, fd: int, count: nat, out: Outcome)
    requires Agrees(v) && v.pending == [] && v.lastFd == fd && InSync(v, fd) && count <= |v.unread|
    requires HitEffect(v, w, fd, count, out)
    ensures Agrees(w) && Abs(w) == Next(Abs(v), Read(fd, count))
    ensures Faithful(out, Result(Abs(v), Read(fd, count)), count)
  {
    TakeUnreadAgrees(v, count);
    UnreadIsPlainRead(v, count);
    PlainReadNext(Abs(v), fd, count, v.unread[..count]);
  }

  lemma PrefetchRefines(v: View, w: View, line: nat, fd: int, count: nat, out: Outcome)
    requires Agrees(v) && v.pending == [] && v.lastFd == fd && InSync(v, fd)
    requires |v.unread| < count <= |v.unread| + line && PrefetchEffect(v, w, line, fd, count, out)
    ensures Agrees(w) && Abs(w) == Next(Abs(v), Read(fd, count))
    ensures Faithful(out, Result(Abs(v), Read(fd, count)), count)
  {
    var reply := Reply(v, fd, line);
    var k := Min(count - |v.unread|, |reply|);
    PlainReadRest(v.files[v.path[fd]], v.clientOff[v.cell[fd]], v.unread, count, line);
    PlainReadNext(Abs(v), fd, count, v.unread + reply[..k]);
    ReadPastAgrees(v, fd, line, k);
  }

  /** Exactly when asking the queue for the cached bytes again does no harm. */
  lemma DirectFaithful(unread: Data, reply: Data, line: nat, count: nat, out: Outcome)
    requires line >= 1 && |unread| + |reply| <= count && DirectOutcome(unread, reply, line, out)
    ensures Faithful(out, unread + reply, count)
            <==> |unread| == 0
                 || (|Lengths(|unread| + |reply|, line)| == |Lengths(|reply|, line)| && 2 * |unread| + |reply| <= count)
  {
  }

  lemma DirectReply(v: View, fd: int, count: nat)
    requires Agrees(v) && v.pending == [] && v.lastFd == fd && InSync(v, fd) && |v.unread| < count
    ensures var reply := Reply(v, fd, count - |v.unread|);
            && reply == PlainRead(FileOf(Abs(v), fd), OffsetOf(Abs(v), fd) + |v.unread|, count - |v.unread|)
            && PlainRead(FileOf(Abs(v), fd), OffsetOf(Abs(v), fd), count) == v.unread + reply
  {
    var reply := Reply(v, fd, count - |v.unread|);
    PlainReadRest(v.files[v.path[fd]], v.clientOff[v.cell[fd]], v.unread, count, count - |v.unread|);
    assert reply[..|reply|] == reply;
  }

  lemma DirectFaithfulPlain(p: Plain, unread: Data, reply: Data, line: nat, fd: int, count: nat, out: Outcome)
    requires Wired(p) && fd in p.path && line >= 1 && count > |unread| + line
    requires reply == PlainRead(FileOf(p, fd), OffsetOf(p, fd) + |unread|, count - |unread|)
    requires PlainRead(FileOf(p, fd), OffsetOf(p, fd), count) == unread + reply
    requires DirectOutcome(unread, reply, line, out)
    ensures Faithful(out, Result(p, Read(fd, count)), count) <==> ReadIsFaithful(p, line, |unread|, fd, count)
    ensures out.Finished? && |out.buffer| <= count ==> Faithful(out, Result(p, Read(fd, count)), count)
  {
    DirectFaithful(unread, reply, line, count, out);
  }

  lemma DirectRefines(v: View, line: nat, fd: int, count: nat, out: Outcome)
    requires Agrees(v) && v.pending == [] && v.lastFd == fd && InSync(v, fd) && line >= 1
    requires count > |v.unread| + line && DirectOutcome(v.unread, Reply(v, fd, count - |v.unread|), line, out)
    ensures Faithful(out, Result(Abs(v), Read(fd, count)), count)
            <==> ReadIsFaithful(Abs(v), line, |v.unread|, fd, count)
    ensures out.Finished? && |out.buffer| <= count ==> Faithful(out, Result(Abs(v), Read(fd, count)), count)
  {
    hide Agrees, Abs, PlainRead, Faithful, ReadIsFaithful, DirectOutcome;
    AbsWired(v);
    DirectReply(v, fd, count);
    DirectFaithfulPlain(Abs(v), v.unread, Reply(v, fd, count - |v.unread|), line, fd, count, out);
  }

  lemma DirectNext(v: View, fd: int, count: nat)
    requires Agrees(v) && v.pending == [] && v.lastFd == fd && InSync(v, fd) && |v.unread| < count
    ensures var reply := Reply(v, fd, count - |v.unread|);
            var w := ReadPast(v, fd, reply, |reply|);
            Agrees(w) && Abs(w) == Next(Abs(v), Read(fd, count))
  {
    var reply := Reply(v, fd, count - |v.unread|);
    DirectReply(v, fd, count);
    PlainReadNext(Abs(v), fd, count, v.unread + reply);
    ReadPastAgrees(v, fd, count - |v.unread|, |reply|);
  }

  /** The effect is that of a plain read exactly under the stated condition. */
  lemma ReadEffectRefines(v: View, w: View, line: nat, fd: int, count: nat, out: Outcome)
    requires Agrees(v) && v.pending == [] && v.lastFd == fd && InSync(v, fd) && line >= 1
    requires ReadEffect(v, w, line, fd, count, out)
    ensures Faithful(out, Result(Abs(v), Read(fd, count)), count)
            <==> ReadIsFaithful(Abs(v), line, |v.unread|, fd, count)
    ensures out.Finished? && |out.buffer| <= count ==> Faithful(out, Result(Abs(v), Read(fd, count)), count)
    ensures ReadIsFaithful(Abs(v), line, |v.unread|, fd, count) ==> Agrees(w) && Abs(w) == Next(Abs(v), Read(fd, count))
    ensures ReadIsFaithful(Abs(v), line, |v.unread|, fd, count) ==>
              Allowed(Abs(v), Read(fd, count)) && AheadOf(w) == NextAhead(Abs(v), AheadOf(v), line, Read(fd, count))
  {
    if count <= |v.unread| {
      HitRefines(v, w, fd, count, out);
    } else if count - |v.unread| > line {
      DirectRefines(v, line, fd, count, out);
      DirectNext(v, fd, count);
    } else {
      PrefetchRefines(v, w, line, fd, count, out);
    }
  }

  // ---------------------------------------------------------------------------
  // What the code does with a view, and refinement of a plain write
  // ---------------------------------------------------------------------------

  /** ReadCache::cachesFileOf */
  predicate CachesFileOf(v: View, fd: int)
    requires fd in v.path
  {
    fd == v.lastFd || (v.lastFd in v.path && v.path[fd] == v.path[v.lastFd])
  }

  /** The view once the read cache holds nothing of the file and the write cache is of `fd`. */
  ghost function Aim(v: View, fd: int): View
    requires fd in v.path && CanFlushRead(v)
    requires CanFlushWrite(if CachesFileOf(v, fd) then FlushRead(v) else v)
  {
    var w := if CachesFileOf(v, fd) then FlushRead(v) else v;
    if w.writeFd == fd then w else FlushWrite(w).(writeFd := fd)
  }

  lemma DropCachedLine(v: View, fd: int)
    requires Agrees(v) && fd in v.path
    ensures CanFlushRead(v)
    ensures var w := if CachesFileOf(v, fd) then FlushRead(v) else v;
            Agrees(w) && Abs(w) == Abs(v) && fd in w.path && NotCached(w, fd) && w.pending == v.pending
  {
    FlushReadAgrees(v);
  }

  lemma AimAgrees(v: View, fd: int)
    requires Agrees(v) && fd in v.path
    ensures CanFlushRead(v) && CanFlushWrite(if CachesFileOf(v, fd) then FlushRead(v) else v)
    ensures var w := Aim(v, fd);
            Agrees(w) && Abs(w) == Abs(v) && w.writeFd == fd && fd in w.path && NotCached(w, fd)
    ensures |Aim(v, fd).pending| <= |v.pending|
  {
    hide Agrees, Abs, PlainWrite;
    DropCachedLine(v, fd);
    var w := if CachesFileOf(v, fd) then FlushRead(v) else v;
    FlushWriteAgrees(w);
    RetargetWrite(FlushWrite(w), fd);
  }

  predicate CanFill(v: View) {
    && v.writeFd in v.cell && v.cell[v.writeFd] in v.serverOff && v.cell[v.writeFd] in v.clientOff
    && v.writeFd in v.path && v.path[v.writeFd] in v.files
    && v.serverOff[v.cell[v.writeFd]] <= |v.files[v.path[v.writeFd]]|
  }

  /** WriteCache::_write: fill the line, and send it once it is full. */
  function Append(v: View, d: Data, line: nat): View
    requires CanFill(v)
  {
    var w := v.(pending := v.pending + d);
    if d != [] && |w.pending| == line then FlushWrite(w) else w
  }

  function Send(v: View, d: Data): View
    requires CanFill(v)
  {
    var name, c := v.path[v.writeFd], v.cell[v.writeFd];
    v.(files := v.files[name := PlainWrite(v.files[name], v.serverOff[c], d)],
       serverOff := v.serverOff[c := v.serverOff[c] + |d|])
  }

  /** WriteCache::write, but for the client offset, once the write cache is of the descriptor. */
  function Put(v: View, d: Data, line: nat): View
    requires CanFill(v) && CanFill(FlushWrite(v))
  {
    if |d| <= line - |v.pending| then Append(v, d, line)
    else if |d| > line then Send(FlushWrite(v), d)
    else Append(FlushWrite(v), d, line)
  }

  function Bump(v: View, fd: int, n: nat): View {
    if fd in v.cell && v.cell[fd] in v.clientOff
    then v.(clientOff := v.clientOff[v.cell[fd] := v.clientOff[v.cell[fd]] + n])
    else v
  }

  /** A descriptor whose offset leaves no hole can take a write. */
  lemma WritableCanFill(v: View)
    requires Agrees(v) && v.writeFd in v.path && NotCached(v, v.writeFd)
    requires OffsetOf(Abs(v), v.writeFd) <= |FileOf(Abs(v), v.writeFd)|
    ensures CanFill(v)
  {
    if v.pending == [] {
      DirectWriteAgrees(v, []);
    }
  }

  lemma AppendParts(v: View, d: Data, line: nat)
    requires CanFill(v)
    ensures var w := AddPending(v, d);
            && CanFlushWrite(w)
            && Bump(Append(v, d, line), v.writeFd, |d|) == if d != [] && |w.pending| == line then FlushWrite(w) else w
  {
  }

  lemma AppendRefines(v: View, d: Data, line: nat)
    requires Agrees(v) && v.writeFd in v.path && NotCached(v, v.writeFd) && CanFill(v)
    requires OffsetOf(Abs(v), v.writeFd) <= |FileOf(Abs(v), v.writeFd)|
    requires |v.pending| < line && |d| <= line - |v.pending|
    ensures var w := Bump(Append(v, d, line), v.writeFd, |d|);
            Agrees(w) && Abs(w) == Next(Abs(v), Write(v.writeFd, d)) && |w.pending| < line
  {
    AppendParts(v, d, line);
    AddPendingAgrees(v, d);
    FlushWriteAgrees(AddPending(v, d));
  }

  lemma SendRefines(v: View, d: Data)
    requires Agrees(v) && v.pending == [] && v.writeFd in v.path && NotCached(v, v.writeFd) && CanFill(v)
    requires OffsetOf(Abs(v), v.writeFd) <= |FileOf(Abs(v), v.writeFd)|
    ensures var w := Bump(Send(v, d), v.writeFd, |d|);
            Agrees(w) && Abs(w) == Next(Abs(v), Write(v.writeFd, d)) && w.pending == []
  {
    DirectWriteAgrees(v, d);
    assert Bump(Send(v, d), v.writeFd, |d|) == DirectWrite(v, d);
  }

  lemma PutRefines(v: View, d: Data, line: nat)
    requires Agrees(v) && v.writeFd in v.path && NotCached(v, v.writeFd)
    requires OffsetOf(Abs(v), v.writeFd) <= |FileOf(Abs(v), v.writeFd)| && |v.pending| < line
    ensures CanFill(v) && CanFill(FlushWrite(v))
    ensures var w := Bump(Put(v, d, line), v.writeFd, |d|);
            Agrees(w) && Abs(w) == Next(Abs(v), Write(v.writeFd, d)) && |w.pending| < line
  {
    WritableCanFill(v);
    FlushWriteAgrees(v);
    WritableCanFill(FlushWrite(v));
    if |d| <= line - |v.pending| {
      AppendRefines(v, d, line);
    } else if |d| > line {
      SendRefines(FlushWrite(v), d);
    } else {
      AppendRefines(FlushWrite(v), d, line);
    }
  }

  /** capio_cached_write, on views. */
  ghost function Written(v: View, fd: int, d: Data, line: nat): View
    requires fd in v.path && CanFlushRead(v)
    requires CanFlushWrite(if CachesFileOf(v, fd) then FlushRead(v) else v)
    requires CanFill(Aim(v, fd)) && CanFill(FlushWrite(Aim(v, fd))) && fd == Aim(v, fd).writeFd
  {
    Bump(Put(Aim(v, fd), d, line), fd, |d|)
  }

  /** A write leaves the read cache alone, but for the flush of a line of the same file. */
  lemma WrittenAhead(v: View, fd: int, d: Data, line: nat)
    requires fd in v.path && CanFlushRead(v)
    requires CanFlushWrite(if CachesFileOf(v, fd) then FlushRead(v) else v)
    requires CanFill(Aim(v, fd)) && CanFill(FlushWrite(Aim(v, fd))) && fd == Aim(v, fd).writeFd
    ensures AheadOf(Written(v, fd, d, line)) == if CachesFileOf(v, fd) then Ahead(v.lastFd, 0) else AheadOf(v)
  {
    hide PlainWrite;
    PutAhead(Aim(v, fd), d, line);
  }

  lemma PutAhead(v: View, d: Data, line: nat)
    requires CanFill(v) && CanFill(FlushWrite(v))
    ensures AheadOf(Put(v, d, line)) == AheadOf(v)
  {
    hide PlainWrite;
  }

  /** The descriptor that the write cache is of, and how many bytes the server is behind the application. */
  datatype Behind = Behind(fd: int, n: nat)

  function BehindOf(v: View): Behind { Behind(v.writeFd, |v.pending|) }

  /** A write is kept while it fits in the line, which is sent once full; a longer one is sent at once. */
  function NextBehind(b: Behind, line: nat, fd: int, n: nat): Behind {
    var was := if b.fd == fd then b.n else 0;
    var now := if was + n <= line then was + n else n;
    Behind(fd, if now >= line then 0 else now)
  }

  lemma WrittenBehind(v: View, fd: int, d: Data, line: nat)
    requires fd in v.path && CanFlushRead(v)
    requires CanFlushWrite(if CachesFileOf(v, fd) then FlushRead(v) else v)
    requires CanFill(Aim(v, fd)) && CanFill(FlushWrite(Aim(v, fd))) && fd == Aim(v, fd).writeFd
    requires |Aim(v, fd).pending| < line
    ensures BehindOf(Written(v, fd, d, line)) == NextBehind(BehindOf(v), line, fd, |d|)
  {
    hide PlainWrite;
    PutBehind(Aim(v, fd), d, line);
  }

  lemma PutBehind(v: View, d: Data, line: nat)
    requires CanFill(v) && CanFill(FlushWrite(v)) && |v.pending| < line
    ensures BehindOf(Put(v, d, line)) == NextBehind(BehindOf(v), line, v.writeFd, |d|)
  {
    hide PlainWrite;
  }

  lemma WriteRefines(v: View, fd: int, d: Data, line: nat)
    requires Agrees(v) && Allowed(Abs(v), Write(fd, d)) && |v.pending| < line
    ensures CanFlushRead(v) && CanFlushWrite(if CachesFileOf(v, fd) then FlushRead(v) else v)
    ensures Aim(v, fd).writeFd == fd && CanFill(Aim(v, fd)) && CanFill(FlushWrite(Aim(v, fd)))
    ensures |Aim(v, fd).pending| < line
    ensures var w := Written(v, fd, d, line);
            && Agrees(w) && Abs(w) == Next(Abs(v), Write(fd, d)) && |w.pending| < line
            && AheadOf(w) == NextAhead(Abs(v), AheadOf(v), line, Write(fd, d))
            && BehindOf(w) == NextBehind(BehindOf(v), line, fd, |d|)
  {
    assert fd in v.path;
    assert Abs(v).path == v.path;
    hide Agrees, Abs, Aim, Put, CanFill, FlushWrite, FlushRead, CanFlushRead, CanFlushWrite, PlainWrite;
    AimAgrees(v, fd);
    PutRefines(Aim(v, fd), d, line);
    WrittenAhead(v, fd, d, line);
    WrittenBehind(v, fd, d, line);
  }

  // ---------------------------------------------------------------------------
  // Moving and closing descriptors
  // ---------------------------------------------------------------------------

  lemma ReadThenWriteFlushed(v: View)
    requires Agrees(v)
    ensures CanFlushRead(v) && CanFlushWrite(FlushRead(v))
    ensures var w := FlushWrite(FlushRead(v)); Agrees(w) && Abs(w) == Abs(v) && w.unread == [] && w.pending == []
  {
    FlushReadAgrees(v);
    FlushWriteAgrees(FlushRead(v));
  }

  lemma WriteThenReadFlushed(v: View)
    requires Agrees(v)
    ensures CanFlushWrite(v) && CanFlushRead(FlushWrite(v))
    ensures var w := FlushRead(FlushWrite(v)); Agrees(w) && Abs(w) == Abs(v) && w.unread == [] && w.pending == []
  {
    FlushWriteAgrees(v);
    FlushReadAgrees(FlushWrite(v));
  }

  function Reposition(v: View, fd: int, position: nat): View
    requires fd in v.cell
  {
    v.(clientOff := v.clientOff[v.cell[fd] := position], serverOff := v.serverOff[v.cell[fd] := position])
  }

  lemma RepositionRefines(v: View, fd: int, position: nat)
    requires Agrees(v) && fd in v.path
    ensures CanFlushRead(v) && CanFlushWrite(FlushRead(v))
    ensures var w := Reposition(FlushWrite(FlushRead(v)), fd, position);
            && Agrees(w) && Abs(w) == Next(Abs(v), Seek(fd, position)) && w.pending == []
            && AheadOf(w) == Ahead(v.lastFd, 0)
  {
    ReadThenWriteFlushed(v);
    SeekAgrees(FlushWrite(FlushRead(v)), fd, position);
  }

  function Closed(v: View, fd: int): View {
    v.(path := v.path - {fd}, cell := v.cell - {fd})
  }

  lemma CloseRefines(v: View, fd: int)
    requires Agrees(v) && fd in v.path
    ensures CanFlushWrite(v) && CanFlushRead(FlushWrite(v))
    ensures var w := Closed(FlushRead(FlushWrite(v)), fd);
            && Agrees(w) && Abs(w) == Next(Abs(v), Close(fd)) && w.pending == []
            && AheadOf(w) == Ahead(v.lastFd, 0)
  {
    WriteThenReadFlushed(v);
    CloseAgrees(FlushRead(FlushWrite(v)), fd);
  }

  datatype Whence = SeekSet | SeekCur

  class Session {
    const client: Client
    const server: Server
    const rc: ReadCache
    const wc: WriteCache

    constructor (lines: nat, line: nat)
      requires lines >= 1 && line >= 1
      ensures Ready()
      ensures fresh(client) && fresh(server) && fresh(rc) && fresh(rc.queue) && fresh(wc) && fresh(wc.queue)
      ensures rc.line == line && AheadOf(View()) == Ahead(-1, 0)
      ensures Abs(View()) == Plain(map[], map[], map[], map[])
    {
      client := new Client();
      server := new Server();
      rc := new ReadCache(lines, line);
      wc := new WriteCache(lines, line);
      new;
      hide Agrees, Abs;
      assert server.Contents() == map[];
      EmptyAgrees(View());
    }

    ghost function Parts(): set<object> {
      {client, server, rc, rc.queue, wc, wc.queue}
    }

    ghost function View(): View
      requires rc.Valid() && wc.Valid()
      reads client, server, rc, rc.queue, wc, wc.queue
    {
      CacheViews.View(server.Contents(), client.path, client.cell, server.offset, client.offset,
                      rc.lastFd, rc.Unread(), wc.fd, wc.Pending())
    }

    ghost predicate Whole()
      reads client, server, rc, rc.queue, wc, wc.queue
    {
      && rc.Valid() && wc.Valid() && server.Valid()
      && rc.line == wc.line && rc.queue != wc.queue
      && client.path == server.path && client.cell == server.cell
    }

    /** What holds between operations. */
    ghost predicate Ready()
      reads client, server, rc, rc.queue, wc, wc.queue
    {
      Whole() && Agrees(View()) && wc.actual < wc.line
    }

    method FlushReadCache()
      requires Whole() && CanFlushRead(View())
      modifies rc`actual, rc`cacheOffset, server`offset
      ensures Whole() && View() == FlushRead(old(View()))
    {
      rc.Flush(client, server);
    }

    method FlushWriteCache()
      requires Whole() && CanFlushWrite(View())
      modifies wc`reserved, wc`actual, wc.queue, server`files, server`offset
      ensures Whole() && View() == FlushWrite(old(View())) && wc.actual == 0
    {
      wc.Flush(server);
    }

    /** capio_cached_read: WriteCache::flush, then ReadCache::read. */
    method CachedRead(fd: int, count: nat) returns (out: Outcome)
      requires Ready() && fd in client.path
      modifies Parts()
      ensures var p, r := old(Abs(View())), old(Held(AheadOf(View()), fd));
              && (Faithful(out, Result(p, Read(fd, count)), count) <==> ReadIsFaithful(p, rc.line, r, fd, count))
              && (out.Finished? && |out.buffer| <= count ==> Faithful(out, Result(p, Read(fd, count)), count))
              && (ReadIsFaithful(p, rc.line, r, fd, count) ==>
                    && Ready() && Abs(View()) == Next(p, Read(fd, count))
                    && AheadOf(View()) == NextAhead(p, old(AheadOf(View())), rc.line, Read(fd, count)))
    {
      hide Agrees, Abs, PlainRead, ReadIsFaithful, Next, Result, NextAhead, SwitchTo, ReadEffect, InSync;
      ghost var v := View();
      SwitchAgrees(v, fd);
      AbsWired(v);
      ReadAhead(Abs(v), AheadOf(v), rc.line, fd, count);
      Prepare(fd);
      out := ReadThrough(fd, count);
      ghost var w := SwitchTo(v, fd);
      ReadEffectRefines(w, if out.Finished? then View() else w, rc.line, fd, count, out);
    }

    /** Send what was written, and drop the cached line of another descriptor. */
    method Prepare(fd: int)
      requires Whole() && CanFlushWrite(View()) && CanFlushRead(FlushWrite(View()))
      modifies rc`actual, rc`cacheOffset, rc`lastFd, wc`reserved, wc`actual, wc.queue, server`files, server`offset
      ensures Whole() && View() == SwitchTo(old(View()), fd) && wc.actual == 0
    {
      FlushWriteCache();
      if rc.lastFd != fd {
        FlushReadCache();
        rc.lastFd := fd;
      }
    }

    /** ReadCache::read once the cached line, if any, is of `fd`. */
    method ReadThrough(fd: int, count: nat) returns (out: Outcome)
      requires Whole() && rc.lastFd == fd && InSync(View(), fd)
      modifies client`offset, server`offset, rc`slot, rc`actual, rc`cacheOffset, rc.queue
      ensures out.Finished? ==> Whole()
      ensures ReadEffect(old(View()), if out.Finished? then View() else old(View()), rc.line, fd, count, out)
    {
      var remaining := rc.actual - rc.cacheOffset;
      if count <= remaining {
        out := ViewHit(fd, count);
      } else if count - remaining > rc.line {
        out := ViewDirect(fd, count);
      } else {
        out := ViewPrefetching(fd, count);
      }
    }

    method ViewHit(fd: int, count: nat) returns (out: Outcome)
      requires Whole() && rc.lastFd == fd && InSync(View(), fd) && count <= |View().unread|
      modifies client`offset, rc`cacheOffset
      ensures Whole() && HitEffect(old(View()), View(), fd, count, out)
    {
      out := ReadHit(fd, count);
    }

    method ViewPrefetching(fd: int, count: nat) returns (out: Outcome)
      requires Whole() && rc.lastFd == fd && InSync(View(), fd)
      requires |View().unread| < count <= |View().unread| + rc.line
      modifies client`offset, server`offset, rc`slot, rc`actual, rc`cacheOffset, rc.queue
      ensures Whole() && PrefetchEffect(old(View()), View(), rc.line, fd, count, out)
    {
      out := ReadPrefetching(fd, count);
    }

    method ViewDirect(fd: int, count: nat) returns (out: Outcome)
      requires Whole() && rc.lastFd == fd && InSync(View(), fd) && count > |View().unread| + rc.line
      modifies client`offset, server`offset, rc`cacheOffset, rc.queue
      ensures out.Finished? ==> Whole()
      ensures DirectEffect(old(View()), if out.Finished? then View() else old(View()), rc.line, fd, count, out)
    {
      hide PlainRead;
      ghost var v := View();
      ghost var reply := Reply(v, fd, count - |v.unread|);
      assert reply == ServerReply(fd, count - |rc.Unread()|);
      out := ReadDirect(fd, count);
      assert reply[|reply|..] == [];
    }

    /** The server offset is past the client offset by the cached bytes. */
    ghost predicate Synced(fd: int)
      reads client, server, rc, rc.queue
    {
      && rc.Valid() && server.Valid() && client.cell == server.cell
      && fd in server.path && client.cell[fd] in client.offset
      && server.offset[client.cell[fd]] == client.offset[client.cell[fd]] + |rc.Unread()|
    }

    ghost function ServerReply(fd: int, asked: nat): Data
      requires server.Valid() && fd in server.path
      reads server
    {
      PlainRead(server.Contents()[server.path[fd]], server.offset[server.cell[fd]], asked)
    }

    method ReadHit(fd: int, count: nat) returns (out: Outcome)
      requires Synced(fd) && count <= |rc.Unread()|
      modifies client`offset, rc`cacheOffset
      ensures rc.Valid() && rc.Unread() == old(rc.Unread())[count..]
      ensures client.offset == old(client.offset)[client.cell[fd] := old(client.offset)[client.cell[fd]] + count]
      ensures out == Finished(count, old(rc.Unread())[..count])
    {
      var fileOffset := client.offset[client.cell[fd]];
      var d := rc.Copy(count);
      client.offset := client.offset[client.cell[fd] := fileOffset + count];
      out := Finished(count, d);
    }

    /** The server is asked for a line, and what the read leaves of it is kept. */
    method ReadPrefetching(fd: int, count: nat) returns (out: Outcome)
      requires Synced(fd) && |rc.Unread()| < count <= |rc.Unread()| + rc.line
      modifies client`offset, server`offset, rc`slot, rc`actual, rc`cacheOffset, rc.queue
      ensures rc.Valid() && server.Valid()
      ensures var r, reply := |old(rc.Unread())|, old(ServerReply(fd, rc.line));
              var k := Min(count - r, |reply|);
              && rc.Unread() == reply[k..]
              && server.offset == old(server.offset)[server.cell[fd] := old(server.offset)[server.cell[fd]] + |reply|]
              && client.offset == old(client.offset)[client.cell[fd] := old(client.offset)[client.cell[fd]] + r + k]
              && out == Finished(r + k, old(rc.Unread()) + reply[..k])
    {
      var fileOffset := client.offset[client.cell[fd]];
      var remaining := rc.actual - rc.cacheOffset;
      var readSize := count - remaining;
      ghost var unread, reply := rc.Unread(), ServerReply(fd, rc.line);
      var d := rc.Copy(remaining);
      assert d == unread;
      var endOfRead := FetchLine(fd);
      assert rc.Unread() == reply && rc.actual == |reply| == endOfRead - fileOffset - remaining;
      var e := rc.Copy(if readSize < rc.actual then readSize else rc.actual);
      assert e == reply[..Min(readSize, |reply|)];
      client.offset := client.offset[client.cell[fd] := fileOffset + remaining + |e|];
      out := Finished(remaining + |e|, d + e);
    }

    /** Ask for a line, and keep what comes. */
    method FetchLine(fd: int) returns (endOfRead: nat)
      requires rc.Valid() && server.Valid() && fd in server.path
      modifies server`offset, rc`slot, rc`actual, rc`cacheOffset, rc.queue
      ensures rc.Valid() && server.Valid() && rc.cacheOffset == 0 && rc.actual == |rc.Unread()|
      ensures rc.Unread() == old(ServerReply(fd, rc.line))
      ensures endOfRead == old(server.offset)[server.cell[fd]] + |rc.Unread()|
      ensures server.offset == old(server.offset)[server.cell[fd] := endOfRead]
    {
      var payload;
      endOfRead, payload := server.HandleRead(fd, rc.line);
      rc.Load(payload);
    }

    /** The server is asked for exactly what the read lacks, and nothing is kept. */
    method ReadDirect(fd: int, count: nat) returns (out: Outcome)
      requires Synced(fd) && count > |rc.Unread()| + rc.line
      modifies client`offset, server`offset, rc`cacheOffset, rc.queue
      ensures DirectOutcome(old(rc.Unread()), old(ServerReply(fd, count - |rc.Unread()|)), rc.line, out)
      ensures out.Finished? ==>
                var r, reply := |old(rc.Unread())|, old(ServerReply(fd, count - |rc.Unread()|));
                && rc.Valid() && server.Valid()
                && rc.Unread() == []
                && server.offset == old(server.offset)[server.cell[fd] := old(server.offset)[server.cell[fd]] + |reply|]
                && client.offset
                   == old(client.offset)[client.cell[fd] := old(client.offset)[client.cell[fd]] + r + |reply|]
    {
      var fileOffset := client.offset[client.cell[fd]];
      var remaining := rc.actual - rc.cacheOffset;
      var readSize := count - remaining;
      ghost var unread, reply := rc.Unread(), ServerReply(fd, readSize);
      var d := rc.Copy(remaining);
      assert d == unread;
      var ok, bytesRead, got := FetchExact(fd, readSize, fileOffset);
      assert bytesRead == |unread| + |reply|;
      if !ok {
        return Blocked;
      }
      client.offset := client.offset[client.cell[fd] := fileOffset + bytesRead];
      out := Finished(bytesRead, d + got);
    }

    /** Ask for `readSize` bytes, and the queue for all the bytes past the client offset. */
    method FetchExact(fd: int, readSize: nat, fileOffset: nat) returns (ok: bool, bytesRead: nat, got: Data)
      requires rc.Valid() && rc.Unread() == [] && server.Valid() && fd in server.path
      requires fileOffset <= server.offset[server.cell[fd]]
      modifies server`offset, rc.queue
      ensures var reply := old(ServerReply(fd, readSize));
              && bytesRead == old(server.offset)[server.cell[fd]] + |reply| - fileOffset
              && (ok <==> |Lengths(bytesRead, rc.line)| == |Lengths(|reply|, rc.line)|)
              && (ok ==>
                    && rc.Valid() && rc.Unread() == [] && server.Valid()
                    && |got| == bytesRead && reply <= got
                    && server.offset
                       == old(server.offset)[server.cell[fd] := old(server.offset)[server.cell[fd]] + |reply|])
    {
      var endOfRead, payload := server.HandleRead(fd, readSize);
      bytesRead := endOfRead - fileOffset;
      ok, got := rc.queue.Exchange(payload, bytesRead);
    }

    /** capio_cached_write: drop the cached line of the same file, then WriteCache::write. */
    method CachedWrite(fd: int, data: Data)
      requires Ready() && Allowed(Abs(View()), Write(fd, data))
      modifies Parts()
      ensures Ready() && Abs(View()) == Next(old(Abs(View())), Write(fd, data))
      ensures AheadOf(View()) == NextAhead(old(Abs(View())), old(AheadOf(View())), rc.line, Write(fd, data))
      ensures BehindOf(View()) == NextBehind(old(BehindOf(View())), wc.line, fd, |data|)
    {
      hide Agrees, Abs, Next, NextAhead, NextBehind, PlainWrite;
      WriteRefines(View(), fd, data, wc.line);
      WriteSteps(fd, data);
    }

    method WriteSteps(fd: int, data: Data)
      requires Whole() && fd in client.path && CanFlushRead(View())
      requires CanFlushWrite(if CachesFileOf(View(), fd) then FlushRead(View()) else View())
      requires CanFill(Aim(View(), fd)) && CanFill(FlushWrite(Aim(View(), fd))) && fd == Aim(View(), fd).writeFd
      requires |Aim(View(), fd).pending| < wc.line
      modifies Parts()
      ensures Whole() && View() == Written(old(View()), fd, data, wc.line)
    {
      TurnTo(fd);
      WriteThrough(data);
      MoveClient(fd, |data|);
    }

    /** set_capio_fd_offset at the end of a write. */
    method MoveClient(fd: int, n: nat)
      requires Whole() && fd in client.cell && client.cell[fd] in client.offset
      modifies client`offset
      ensures Whole() && View() == Bump(old(View()), fd, n)
    {
      client.offset := client.offset[client.cell[fd] := client.offset[client.cell[fd]] + n];
    }

    method TurnTo(fd: int)
      requires Whole() && fd in client.path && CanFlushRead(View())
      requires CanFlushWrite(if CachesFileOf(View(), fd) then FlushRead(View()) else View())
      modifies rc`actual, rc`cacheOffset, wc`fd, wc`reserved, wc`actual, wc.queue, server`files, server`offset
      ensures Whole() && View() == Aim(old(View()), fd)
    {
      if fd == rc.lastFd || (rc.lastFd in client.path && client.path[fd] == client.path[rc.lastFd]) {
        FlushReadCache();
      }
      if wc.fd != fd {
        FlushWriteCache();
        wc.fd := fd;
      }
    }

    method WriteThrough(data: Data)
      requires Whole() && CanFill(View()) && CanFill(FlushWrite(View())) && wc.actual < wc.line
      modifies wc`reserved, wc`slot, wc`actual, wc.queue, server`files, server`offset
      ensures Whole() && View() == Put(old(View()), data, wc.line)
    {
      if |data| <= wc.line - wc.actual {
        AppendLine(data);
      } else {
        FlushWriteCache();
        if |data| > wc.line {
          SendLong(data);
        } else {
          AppendLine(data);
        }
      }
    }

    /** WriteCache::_write */
    method AppendLine(data: Data)
      requires Whole() && CanFill(View()) && |data| <= wc.line - wc.actual
      modifies wc`reserved, wc`slot, wc`actual, wc.queue, server`files, server`offset
      ensures Whole() && View() == Append(old(View()), data, wc.line)
    {
      ghost var v := View();
      if data != [] {
        wc.Fill(data);
        assert View() == v.(pending := v.pending + data);
        if wc.actual == wc.line {
          FlushWriteCache();
        }
      }
    }

    /** A write longer than a line: the request first, then the data, element by element. */
    method SendLong(data: Data)
      requires Whole() && CanFill(View()) && View().pending == [] && data != []
      modifies wc.queue, server`files, server`offset
      ensures Whole() && View() == Send(old(View()), data)
    {
      var ok, got := wc.queue.Exchange(data, |data|);
      assert got == data;
      server.HandleWrite(wc.fd, got);
    }

    /** capio_set_fd_offset */
    method SetFdOffset(fd: int, position: nat)
      requires Ready() && fd in client.path
      modifies Parts()
      ensures Ready() && Abs(View()) == Next(old(Abs(View())), Seek(fd, position))
      ensures AheadOf(View()) == Ahead(old(rc.lastFd), 0)
    {
      RepositionRefines(View(), fd, position);
      SetFdOffsetSteps(fd, position);
    }

    method SetFdOffsetSteps(fd: int, position: nat)
      requires Whole() && fd in client.path && CanFlushRead(View()) && CanFlushWrite(FlushRead(View()))
      modifies Parts()
      ensures Whole() && View() == Reposition(FlushWrite(FlushRead(old(View()))), fd, position)
    {
      FlushReadCache();
      FlushWriteCache();
      client.offset := client.offset[client.cell[fd] := position];
      server.HandleSeek(fd, position);
    }

    /** capio_lseek from the start or from the current offset; -1 when the target is negative. */
    method Lseek(fd: int, offset: int, whence: Whence) returns (r: int)
      requires Ready() && fd in client.path
      modifies Parts()
      ensures Ready()
      ensures var p := old(Abs(View()));
              var target := (if whence.SeekCur? then OffsetOf(p, fd) else 0) + offset;
              if target < 0 then r == -1 && Abs(View()) == p
              else r == target && Abs(View()) == Next(p, Seek(fd, target))
    {
      ReadThenWriteFlushed(View());
      FlushReadCache();
      FlushWriteCache();
      var target := (if whence.SeekCur? then client.offset[client.cell[fd]] else 0) + offset;
      if target < 0 {
        return -1;
      }
      SetFdOffset(fd, target);
      r := target;
    }

    /** dup_request and dup_capio_fd: the caches stay as they are. */
    method DupFd(fd: int, newFd: int)
      requires Ready() && fd in client.path && newFd !in client.path
      modifies Parts()
      ensures Ready() && Abs(View()) == Next(old(Abs(View())), Dup(fd, newFd))
      ensures AheadOf(View()) == old(AheadOf(View()))
    {
      DupAgrees(View(), fd, newFd);
      DupSteps(fd, newFd);
    }

    method DupSteps(fd: int, newFd: int)
      requires Whole() && fd in client.path
      modifies client`path, client`cell, server`path, server`cell
      ensures Whole() && View() == old(View()).(path := client.path, cell := client.cell)
      ensures client.path == old(client.path)[newFd := old(client.path)[fd]]
      ensures client.cell == old(client.cell)[newFd := old(client.cell)[fd]]
    {
      server.HandleDup(fd, newFd);
      client.path := client.path[newFd := client.path[fd]];
      client.cell := client.cell[newFd := client.cell[fd]];
    }

    method OpenFd(fd: int, name: Path, newCell: nat)
      requires Ready() && fd !in client.path && newCell !in client.offset
      modifies Parts()
      ensures Ready() && Abs(View()) == Next(old(Abs(View())), Open(fd, name, newCell))
      ensures AheadOf(View()) == old(AheadOf(View()))
    {
      OpenAgrees(View(), fd, name, newCell);
      OpenSteps(fd, name, newCell);
    }

    method OpenSteps(fd: int, name: Path, newCell: nat)
      requires Whole()
      modifies client, server
      ensures Whole() && View() == Opened(old(View()), fd, name, newCell)
    {
      server.HandleOpen(fd, name, newCell);
      client.path := client.path[fd := name];
      client.cell := client.cell[fd := newCell];
      client.offset := client.offset[newCell := 0];
    }

    /** close_handler of the client: both caches are flushed before the descriptor goes. */
    method CloseFd(fd: int)
      requires Ready() && fd in client.path
      modifies Parts()
      ensures Ready() && Abs(View()) == Next(old(Abs(View())), Close(fd))
      ensures AheadOf(View()) == Ahead(old(rc.lastFd), 0)
    {
      CloseRefines(View(), fd);
      CloseSteps(fd);
    }

    method CloseSteps(fd: int)
      requires Whole() && CanFlushWrite(View()) && CanFlushRead(FlushWrite(View()))
      modifies Parts()
      ensures Whole() && View() == Closed(FlushRead(FlushWrite(old(View()))), fd)
    {
      FlushWriteCache();
      FlushReadCache();
      server.HandleClose(fd);
      client.path := client.path - {fd};
      client.cell := client.cell - {fd};
    }

    /**
     Any sequence of operations: every result is that of plain files, and so is the final state.
     The run stops exactly before the first read that is not faithful.
     */
    method Run(ops: seq<Op>) returns (results: seq<Data>)
      requires Ready() && AllAllowed(Abs(View()), ops)
      modifies Parts()
      ensures |results| == FaithfulCount(old(Abs(View())), old(AheadOf(View())), rc.line, ops)
      ensures AllAllowed(old(Abs(View())), ops[..|results|])
      ensures results == Results(old(Abs(View())), ops[..|results|])
      ensures |results| == |ops| ==> Ready() && Abs(View()) == FinalFiles(old(Abs(View())), ops)
      decreases |ops|
    {
      hide Agrees, Abs, Allowed, Next, Result, OpIsFaithful, NextAhead;
      if ops == [] {
        return [];
      }
      ghost var p := Abs(View());
      var done, d := Perform(ops[0]);
      if !done {
        return [];
      }
      var rest := Run(ops[1..]);
      results := [d] + rest;
      RunCons(p, ops, rest);
    }

    method PerformRead(fd: int, count: nat) returns (done: bool, d: Data)
      requires Ready() && fd in client.path
      modifies Parts()
      ensures done <==> ReadIsFaithful(old(Abs(View())), rc.line, old(Held(AheadOf(View()), fd)), fd, count)
      ensures done ==>
                && Ready() && d == Result(old(Abs(View())), Read(fd, count))
                && Abs(View()) == Next(old(Abs(View())), Read(fd, count))
                && AheadOf(View()) == NextAhead(old(Abs(View())), old(AheadOf(View())), rc.line, Read(fd, count))
    {
      var out := CachedRead(fd, count);
      done, d := out.Finished? && |out.buffer| <= count, [];
      if done {
        d := out.buffer[..out.returned];
      }
    }

    /** One operation; `done` is false exactly when it is a read that is not faithful. */
    method Perform(op: Op) returns (done: bool, d: Data)
      requires Ready() && Allowed(Abs(View()), op)
      modifies Parts()
      ensures done <==> OpIsFaithful(old(Abs(View())), old(AheadOf(View())), rc.line, op)
      ensures done ==>
                && Ready() && d == Result(old(Abs(View())), op) && Abs(View()) == Next(old(Abs(View())), op)
                && AheadOf(View()) == NextAhead(old(Abs(View())), old(AheadOf(View())), rc.line, op)
    {
      done, d := true, [];
      match op {
        case Open(fd, name, newCell) => OpenFd(fd, name, newCell);
        case Read(fd, count) => done, d := PerformRead(fd, count);
        case Write(fd, data) => CachedWrite(fd, data);
        case Seek(fd, position) => SetFdOffset(fd, position);
        case Dup(fd, newFd) => DupFd(fd, newFd);
        case Close(fd) => CloseFd(fd);
      }
    }
  }

  lemma RunCons(p: Plain, ops: seq<Op>, rest: seq<Data>)
    requires ops != [] && Allowed(p, ops[0]) && |rest| <= |ops[1..]|
    requires AllAllowed(Next(p, ops[0]), ops[1..][..|rest|]) && rest == Results(Next(p, ops[0]), ops[1..][..|rest|])
    ensures AllAllowed(p, ops[..|rest| + 1])
    ensures Results(p, ops[..|rest| + 1]) == [Result(p, ops[0])] + rest
  {
    assert ops[..|rest| + 1][0] == ops[0] && ops[..|rest| + 1][1..] == ops[1..][..|rest|];
  }

  // ---------------------------------------------------------------------------
  // A session that a long read breaks
  // ---------------------------------------------------------------------------

  lemma FaithfulThen(p: Plain, a: Ahead, line: nat, op: Op, rest: seq<Op>)
    requires line >= 1 && Allowed(p, op) && OpIsFaithful(p, a, line, op) && AllAllowed(Next(p, op), rest)
    ensures AllAllowed(p, [op] + rest)
    ensures FaithfulCount(p, a, line, [op] + rest)
            == 1 + FaithfulCount(Next(p, op), NextAhead(p, a, line, op), line, rest)
  {
    assert ([op] + rest)[1..] == rest;
  }

  /** One open file, one descriptor. */
  function OneFile(name: Path, d: Data, offset: nat): Plain {
    Plain(map[name := d], map[3 := name], map[3 := 0], map[0 := offset])
  }

  /** Open, write nine bytes, seek back, read one, read eight: with lines of four bytes the last is not faithful. */
  function LongReadOps(name: Path, d: Data): seq<Op> {
    [Open(3, name, 0)] + ([Write(3, d)] + ([Seek(3, 0)] + ([Read(3, 1)] + [Read(3, 8)])))
  }

  /** One operation, and where it leaves the file and the cache. */
  ghost predicate Leads(p: Plain, a: Ahead, op: Op, q: Plain, b: Ahead) {
    Allowed(p, op) && OpIsFaithful(p, a, 4, op) && Next(p, op) == q && NextAhead(p, a, 4, op) == b
  }

  lemma OpenLeads(name: Path)
    ensures Leads(Plain(map[], map[], map[], map[]), Ahead(-1, 0), Open(3, name, 0), OneFile(name, [], 0), Ahead(-1, 0))
  {
  }

  lemma WriteLeads(name: Path, d: Data)
    requires |d| == 9
    ensures Leads(OneFile(name, [], 0), Ahead(-1, 0), Write(3, d), OneFile(name, d, 9), Ahead(-1, 0))
  {
    assert PlainWrite([], 0, d) == d;
  }

  lemma SeekLeads(name: Path, d: Data)
    ensures Leads(OneFile(name, d, 9), Ahead(-1, 0), Seek(3, 0), OneFile(name, d, 0), Ahead(-1, 0))
  {
  }

  lemma ReadLeads(name: Path, d: Data)
    requires |d| == 9
    ensures Leads(OneFile(name, d, 0), Ahead(-1, 0), Read(3, 1), OneFile(name, d, 1), Ahead(3, 3))
  {
  }

  lemma LongReadStops(name: Path, d: Data)
    requires |d| == 9
    ensures AllAllowed(OneFile(name, d, 1), [Read(3, 8)])
    ensures FaithfulCount(OneFile(name, d, 1), Ahead(3, 3), 4, [Read(3, 8)]) == 0
  {
    var p, last := OneFile(name, d, 1), [Read(3, 8)];
    assert last[1..] == [];
    LongReadMismatch(p, 4, 3, 3, 8);
  }

  lemma LongReadBreaks(name: Path, d: Data)
    requires |d| == 9
    ensures var p := Plain(map[], map[], map[], map[]);
            AllAllowed(p, LongReadOps(name, d)) && FaithfulCount(p, Ahead(-1, 0), 4, LongReadOps(name, d)) == 4
  {
    hide Next, NextAhead, Allowed, OpIsFaithful, AllAllowed, FaithfulCount, OneFile;
    var last := [Read(3, 8)];
    LongReadStops(name, d);
    ReadLeads(name, d);
    FaithfulThen(OneFile(name, d, 0), Ahead(-1, 0), 4, Read(3, 1), last);
    SeekLeads(name, d);
    FaithfulThen(OneFile(name, d, 9), Ahead(-1, 0), 4, Seek(3, 0), [Read(3, 1)] + last);
    WriteLeads(name, d);
    FaithfulThen(OneFile(name, [], 0), Ahead(-1, 0), 4, Write(3, d), [Seek(3, 0)] + ([Read(3, 1)] + last));
    OpenLeads(name);
    FaithfulThen(Plain(map[], map[], map[], map[]), Ahead(-1, 0), 4, Open(3, name, 0),
                 [Write(3, d)] + ([Seek(3, 0)] + ([Read(3, 1)] + last)));
  }

  /** The same through the caches: the session stops at its fifth call. */
  method LongReadSession(name: Path, d: Data) returns (results: seq<Data>)
    requires |d| == 9
    ensures |results| == 4
  {
    hide AllAllowed, FaithfulCount, Agrees, Results;
    LongReadBreaks(name, d);
    var s := new Session(2, 4);
    results := s.Run(LongReadOps(name, d));
  }
}
