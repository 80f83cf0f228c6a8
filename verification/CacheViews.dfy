/**
 The client caches as values: what the server holds, what the client has prefetched and not
 read, and what it has written and not sent. `Agrees` is what every operation keeps; `Abs` is
 the plain state the application sees.
 */
module CacheViews {
  import opened Bytes
  import opened PlainFiles

  /**
   `unread` are the bytes of the read cache line not read yet, prefetched through `lastFd`.
   `pending` are the bytes of the write cache line not sent yet, written through `writeFd`.
   */
  datatype View = View(
    files: map<Path, Data>, path: map<int, Path>, cell: map<int, nat>,
    serverOff: map<nat, nat>, clientOff: map<nat, nat>,
    lastFd: int, unread: Data, writeFd: int, pending: Data)

  function PendingOn(v: View, c: nat): nat {
    if v.pending != [] && v.writeFd in v.cell && v.cell[v.writeFd] == c then |v.pending| else 0
  }

  function UnreadOn(v: View, c: nat): nat {
    if v.unread != [] && v.lastFd in v.cell && v.cell[v.lastFd] == c then |v.unread| else 0
  }

  /** The client table, and the server's view of it. */
  ghost predicate Linked(v: View) {
    Wired(Table(v)) && v.serverOff.Keys == v.clientOff.Keys
  }

  function Table(v: View): Plain { Plain(v.files, v.path, v.cell, v.clientOff) }

  /** Server offset plus pending bytes is client offset plus unread bytes, for every offset. */
  ghost predicate Balanced(v: View)
    requires Linked(v)
  {
    forall c {:trigger BalancedAt(v, c)} :: c in v.clientOff ==> BalancedAt(v, c)
  }

  ghost predicate BalancedAt(v: View, c: nat)
    requires c in v.clientOff && c in v.serverOff
  {
    v.serverOff[c] + PendingOn(v, c) == v.clientOff[c] + UnreadOn(v, c)
  }

  /** The prefetched bytes are what the file holds at the client offset, and no write is pending on it. */
  ghost predicate UnreadIsFresh(v: View)
    requires Linked(v)
  {
    v.unread != [] ==>
      && v.lastFd in v.path
      && var o := v.clientOff[v.cell[v.lastFd]];
         var f := v.files[v.path[v.lastFd]];
      && o + |v.unread| <= |f|
      && v.unread == f[o..o + |v.unread|]
      && (v.pending != [] && v.writeFd in v.path ==> v.path[v.writeFd] != v.path[v.lastFd])
  }

  /** The pending bytes go where they leave no hole. */
  ghost predicate PendingIsPlaced(v: View)
    requires Linked(v)
  {
    v.pending != [] ==>
      v.writeFd in v.path && v.serverOff[v.cell[v.writeFd]] <= |v.files[v.path[v.writeFd]]|
  }

  ghost predicate Agrees(v: View) {
    Linked(v) && Balanced(v) && UnreadIsFresh(v) && PendingIsPlaced(v)
  }

  /** The files once the pending bytes are written. */
  ghost function AbsFiles(v: View): map<Path, Data>
    requires Agrees(v)
  {
    if v.pending == [] then v.files
    else
      var name := v.path[v.writeFd];
      v.files[name := PlainWrite(v.files[name], v.serverOff[v.cell[v.writeFd]], v.pending)]
  }

  ghost function Abs(v: View): Plain
    requires Agrees(v)
  {
    Plain(AbsFiles(v), v.path, v.cell, v.clientOff)
  }

  lemma EmptyAgrees(v: View)
    requires v == View(map[], map[], map[], map[], map[], v.lastFd, [], v.writeFd, [])
    ensures Agrees(v) && Abs(v) == Plain(map[], map[], map[], map[])
  {
  }

  // ---------------------------------------------------------------------------
  // Flushing
  // ---------------------------------------------------------------------------

  predicate CanFlushRead(v: View) {
    v.unread != [] ==> v.lastFd in v.cell && v.cell[v.lastFd] in v.clientOff
  }

  /** ReadCache::flush: forget the unread bytes and tell the server the client offset. */
  function FlushRead(v: View): View
    requires CanFlushRead(v)
  {
    if v.unread == [] then v
    else v.(unread := [], serverOff := v.serverOff[v.cell[v.lastFd] := v.clientOff[v.cell[v.lastFd]]])
  }

  lemma FlushReadAgrees(v: View)
    requires Agrees(v)
    ensures CanFlushRead(v) && Agrees(FlushRead(v)) && Abs(FlushRead(v)) == Abs(v)
  {
    if v.unread != [] {
      var w := FlushRead(v);
      var c := v.cell[v.lastFd];
      assert v.pending != [] ==> SameOffsetSameFile(v.path, v.cell, v.writeFd, v.lastFd);
      forall k | k in w.clientOff ensures BalancedAt(w, k) {
        assert BalancedAt(v, k);
      }
    }
  }

  predicate CanFlushWrite(v: View) {
    v.pending != [] ==>
      && v.writeFd in v.cell && v.cell[v.writeFd] in v.serverOff
      && v.writeFd in v.path && v.path[v.writeFd] in v.files
      && v.serverOff[v.cell[v.writeFd]] <= |v.files[v.path[v.writeFd]]|
  }

  /** WriteCache::flush: the server writes the pending bytes at its offset, and moves it. */
  function FlushWrite(v: View): View
    requires CanFlushWrite(v)
  {
    if v.pending == [] then v
    else
      var name, c := v.path[v.writeFd], v.cell[v.writeFd];
      v.(files := v.files[name := PlainWrite(v.files[name], v.serverOff[c], v.pending)],
         serverOff := v.serverOff[c := v.serverOff[c] + |v.pending|],
         pending := [])
  }

  lemma FlushWriteAgrees(v: View)
    requires Agrees(v)
    ensures CanFlushWrite(v) && Agrees(FlushWrite(v)) && Abs(FlushWrite(v)) == Abs(v)
  {
    if v.pending != [] {
      var w := FlushWrite(v);
      var c := v.cell[v.writeFd];
      assert v.unread != [] ==> SameOffsetSameFile(v.path, v.cell, v.writeFd, v.lastFd);
      forall k | k in w.clientOff ensures BalancedAt(w, k) {
        assert BalancedAt(v, k);
      }
    }
  }

  // ---------------------------------------------------------------------------
  // Reading
  // ---------------------------------------------------------------------------

  /** Take `k` bytes from the cached line. */
  function TakeUnread(v: View, k: nat): View
    requires k <= |v.unread| && v.lastFd in v.cell && v.cell[v.lastFd] in v.clientOff
  {
    var c := v.cell[v.lastFd];
    v.(unread := v.unread[k..], clientOff := v.clientOff[c := v.clientOff[c] + k])
  }

  lemma TakeUnreadAgrees(v: View, k: nat)
    requires Agrees(v) && v.lastFd in v.path && k <= |v.unread|
    ensures Agrees(TakeUnread(v, k))
    ensures Abs(TakeUnread(v, k)) == Moved(Abs(v), v.cell[v.lastFd], v.clientOff[v.cell[v.lastFd]] + k)
  {
    var w := TakeUnread(v, k);
    var c := v.cell[v.lastFd];
    if v.unread != [] {
      assert v.pending != [] ==> SameOffsetSameFile(v.path, v.cell, v.writeFd, v.lastFd);
      assert v.pending != [] ==> v.path[v.writeFd] != v.path[v.lastFd];
    }
    forall x | x in w.clientOff ensures BalancedAt(w, x) {
      assert BalancedAt(v, x);
    }
  }

  /** The cached bytes are the ones a plain read returns. */
  lemma UnreadIsPlainRead(v: View, k: nat)
    requires Agrees(v) && v.lastFd in v.path && k <= |v.unread|
    ensures v.unread[..k] == PlainRead(FileOf(Abs(v), v.lastFd), OffsetOf(Abs(v), v.lastFd), k)
  {
    if k > 0 {
      assert FileOf(Abs(v), v.lastFd) == v.files[v.path[v.lastFd]];
    }
  }

  /** A reply of `n` bytes is cached: the server offset runs ahead of the client by `n`. */
  function Prefetch(v: View, n: nat): View
    requires v.lastFd in v.cell && v.cell[v.lastFd] in v.serverOff
    requires v.lastFd in v.path && v.path[v.lastFd] in v.files
    requires v.serverOff[v.cell[v.lastFd]] + n <= |v.files[v.path[v.lastFd]]|
  {
    var c := v.cell[v.lastFd];
    var o := v.serverOff[c];
    v.(unread := v.files[v.path[v.lastFd]][o..o + n], serverOff := v.serverOff[c := o + n])
  }

  lemma PrefetchAgrees(v: View, n: nat)
    requires Agrees(v) && v.unread == [] && v.pending == [] && v.lastFd in v.path
    requires v.serverOff[v.cell[v.lastFd]] + n <= |v.files[v.path[v.lastFd]]|
    ensures Agrees(Prefetch(v, n)) && Abs(Prefetch(v, n)) == Abs(v)
    ensures |Prefetch(v, n).unread| == n
  {
    var w := Prefetch(v, n);
    forall x | x in w.clientOff ensures BalancedAt(w, x) {
      assert BalancedAt(v, x);
    }
  }

  // ---------------------------------------------------------------------------
  // Writing
  // ---------------------------------------------------------------------------

  /** Put `d` in the write cache line. */
  function AddPending(v: View, d: Data): View
    requires v.writeFd in v.cell && v.cell[v.writeFd] in v.clientOff
  {
    var c := v.cell[v.writeFd];
    v.(pending := v.pending + d, clientOff := v.clientOff[c := v.clientOff[c] + |d|])
  }

  /** The read cache holds nothing of the file the write goes to. */
  ghost predicate NotCached(v: View, fd: int)
    requires fd in v.path
  {
    v.unread != [] ==> v.lastFd in v.path && v.path[v.lastFd] != v.path[fd]
  }

  lemma AddPendingKeepsAgrees(v: View, d: Data)
    requires Agrees(v) && v.writeFd in v.path && NotCached(v, v.writeFd)
    requires OffsetOf(Abs(v), v.writeFd) <= |FileOf(Abs(v), v.writeFd)|
    ensures Agrees(AddPending(v, d))
    ensures v.clientOff[v.cell[v.writeFd]] == v.serverOff[v.cell[v.writeFd]] + |v.pending|
  {
    var w := AddPending(v, d);
    var c := v.cell[v.writeFd];
    assert v.unread != [] ==> SameOffsetSameFile(v.path, v.cell, v.writeFd, v.lastFd);
    assert BalancedAt(v, c);
    forall x | x in w.clientOff ensures BalancedAt(w, x) {
      assert BalancedAt(v, x);
    }
  }

  /** The pending bytes, with `d` appended, write what the application wrote. */
  lemma PendingFile(file: Data, o: nat, pending: Data, d: Data)
    requires o <= |file|
    ensures PlainWrite(if pending == [] then file else PlainWrite(file, o, pending), o + |pending|, d)
            == if pending + d == [] then file else PlainWrite(file, o, pending + d)
  {
    if pending == [] {
      assert pending + d == d;
      if d == [] { assert PlainWrite(file, o, d) == file; }
    } else {
      PlainWriteTwice(file, o, pending, d);
    }
  }

  lemma AddPendingAgrees(v: View, d: Data)
    requires Agrees(v) && v.writeFd in v.path && NotCached(v, v.writeFd)
    requires OffsetOf(Abs(v), v.writeFd) <= |FileOf(Abs(v), v.writeFd)|
    ensures Agrees(AddPending(v, d))
    ensures Allowed(Abs(v), Write(v.writeFd, d))
    ensures Abs(AddPending(v, d)) == Next(Abs(v), Write(v.writeFd, d))
  {
    AddPendingKeepsAgrees(v, d);
    var c, name := v.cell[v.writeFd], v.path[v.writeFd];
    PendingFile(v.files[name], v.serverOff[c], v.pending, d);
    assert FileOf(Abs(v), v.writeFd)
        == if v.pending == [] then v.files[name] else PlainWrite(v.files[name], v.serverOff[c], v.pending);
    assert AbsFiles(AddPending(v, d)) == AbsFiles(v)[name := PlainWrite(FileOf(Abs(v), v.writeFd), v.clientOff[c], d)];
  }

  /** A write that bypasses the line: the server writes it at its offset. */
  function DirectWrite(v: View, d: Data): View
    requires v.writeFd in v.cell && v.cell[v.writeFd] in v.clientOff && v.cell[v.writeFd] in v.serverOff
    requires v.writeFd in v.path && v.path[v.writeFd] in v.files
    requires v.serverOff[v.cell[v.writeFd]] <= |v.files[v.path[v.writeFd]]|
  {
    var name, c := v.path[v.writeFd], v.cell[v.writeFd];
    v.(files := v.files[name := PlainWrite(v.files[name], v.serverOff[c], d)],
       serverOff := v.serverOff[c := v.serverOff[c] + |d|],
       clientOff := v.clientOff[c := v.clientOff[c] + |d|])
  }

  lemma DirectWriteAgrees(v: View, d: Data)
    requires Agrees(v) && v.pending == [] && v.writeFd in v.path && NotCached(v, v.writeFd)
    requires OffsetOf(Abs(v), v.writeFd) <= |FileOf(Abs(v), v.writeFd)|
    ensures v.serverOff[v.cell[v.writeFd]] <= |v.files[v.path[v.writeFd]]|
    ensures Agrees(DirectWrite(v, d))
    ensures Allowed(Abs(v), Write(v.writeFd, d))
    ensures Abs(DirectWrite(v, d)) == Next(Abs(v), Write(v.writeFd, d))
  {
    var c := v.cell[v.writeFd];
    assert v.unread != [] ==> SameOffsetSameFile(v.path, v.cell, v.writeFd, v.lastFd);
    assert BalancedAt(v, c);
    var w := DirectWrite(v, d);
    forall x | x in w.clientOff ensures BalancedAt(w, x) {
      assert BalancedAt(v, x);
    }
  }

  // ---------------------------------------------------------------------------
  // Moving, duplicating, opening and closing descriptors
  // ---------------------------------------------------------------------------

  lemma SeekAgrees(v: View, fd: int, position: nat)
    requires Agrees(v) && v.unread == [] && v.pending == [] && fd in v.path
    ensures var w := v.(clientOff := v.clientOff[v.cell[fd] := position],
                        serverOff := v.serverOff[v.cell[fd] := position]);
            Agrees(w) && Abs(w) == Next(Abs(v), Seek(fd, position))
  {
    var w := v.(clientOff := v.clientOff[v.cell[fd] := position], serverOff := v.serverOff[v.cell[fd] := position]);
    forall x | x in w.clientOff ensures BalancedAt(w, x) {
      assert BalancedAt(v, x);
    }
  }

  lemma DupAgrees(v: View, fd: int, newFd: int)
    requires Agrees(v) && fd in v.path && newFd !in v.path
    ensures var w := v.(path := v.path[newFd := v.path[fd]], cell := v.cell[newFd := v.cell[fd]]);
            Agrees(w) && Abs(w) == Next(Abs(v), Dup(fd, newFd))
  {
    var w := v.(path := v.path[newFd := v.path[fd]], cell := v.cell[newFd := v.cell[fd]]);
    DupKeepsSharing(v.path, v.cell, fd, newFd);
    forall x | x in w.clientOff ensures BalancedAt(w, x) {
      assert BalancedAt(v, x);
    }
  }

  function Opened(v: View, fd: int, name: Path, newCell: nat): View {
    v.(files := if name in v.files then v.files else v.files[name := []],
       path := v.path[fd := name], cell := v.cell[fd := newCell],
       clientOff := v.clientOff[newCell := 0], serverOff := v.serverOff[newCell := 0])
  }

  lemma OpenBalanced(v: View, fd: int, name: Path, newCell: nat)
    requires Agrees(v) && fd !in v.path && newCell !in v.clientOff
    ensures Linked(Opened(v, fd, name, newCell)) && Balanced(Opened(v, fd, name, newCell))
  {
    var w := Opened(v, fd, name, newCell);
    OpenKeepsSharing(v.path, v.cell, fd, name, newCell);
    assert v.pending != [] ==> w.cell[v.writeFd] == v.cell[v.writeFd];
    assert v.unread != [] ==> w.cell[v.lastFd] == v.cell[v.lastFd];
    forall x | x in w.clientOff ensures BalancedAt(w, x) {
      if x in v.clientOff {
        assert BalancedAt(v, x);
      }
    }
  }

  lemma OpenAgrees(v: View, fd: int, name: Path, newCell: nat)
    requires Agrees(v) && fd !in v.path && newCell !in v.clientOff
    ensures Agrees(Opened(v, fd, name, newCell))
    ensures Abs(Opened(v, fd, name, newCell)) == Next(Abs(v), Open(fd, name, newCell))
  {
    OpenBalanced(v, fd, name, newCell);
    var w := Opened(v, fd, name, newCell);
    assert v.pending != [] ==> w.path[v.writeFd] == v.path[v.writeFd] && w.cell[v.writeFd] == v.cell[v.writeFd];
    assert v.unread != [] ==> w.path[v.lastFd] == v.path[v.lastFd] && w.cell[v.lastFd] == v.cell[v.lastFd];
    assert Agrees(w);
    assert AbsFiles(w) == if name in v.files then AbsFiles(v) else AbsFiles(v)[name := []];
  }

  lemma CloseAgrees(v: View, fd: int)
    requires Agrees(v) && v.unread == [] && v.pending == [] && fd in v.path
    ensures var w := v.(path := v.path - {fd}, cell := v.cell - {fd});
            Agrees(w) && Abs(w) == Next(Abs(v), Close(fd))
  {
    var w := v.(path := v.path - {fd}, cell := v.cell - {fd});
    CloseKeepsSharing(v.path, v.cell, fd);
    forall x | x in w.clientOff ensures BalancedAt(w, x) {
      assert BalancedAt(v, x);
    }
  }
}
