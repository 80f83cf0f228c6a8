/**
 The client caches of capio/posix/utils/cache.hpp and capio/posix/utils/data.hpp over the read,
 write, seek, dup and close handlers of the server, for one client thread. The files are read
 inline by the server (the client is a producer of the file, or the file is committed).
 */
module Caches {
  import opened Bytes
  import opened Sectors
  import opened PlainFiles
  import opened CacheViews
  import opened Transport

  // ---------------------------------------------------------------------------
  // The data queue
  // ---------------------------------------------------------------------------

  /**
   One direction of the shared-memory data queue. `elems` is the semaphore of filled elements.
   Exchange hands an element over before it puts the next, the order in which module Transport
   shows that every other interleaving ends.
   */
  class Queue {
    const capacity: nat
    const elemSize: nat
    var slots: seq<Data>
    var first: nat
    var last: nat
    var elems: nat

    constructor (capacity: nat, elemSize: nat)
      requires capacity >= 1 && elemSize >= 1
      ensures Valid() && elems == 0 && this.capacity == capacity && this.elemSize == elemSize
    {
      this.capacity, this.elemSize := capacity, elemSize;
      slots := seq(capacity, i => seq(elemSize, j => 0));
      first, last, elems := 0, 0, 0;
    }

    function Following(i: nat): nat { if i + 1 == capacity then 0 else i + 1 }

    ghost predicate Valid()
      reads this
    {
      && capacity >= 1 && elemSize >= 1
      && |slots| == capacity && (forall i :: 0 <= i < capacity ==> |slots[i]| == elemSize)
      && first < capacity && last < capacity && elems <= capacity
      && last == (if first + elems < capacity then first + elems else first + elems - capacity)
    }

    /** Queue::_write */
    method Put(d: Data)
      requires Valid() && elems < capacity && |d| <= elemSize
      modifies this
      ensures Valid() && elems == old(elems) + 1 && first == old(first)
      ensures slots == old(slots)[old(last) := d + old(slots[last])[|d|..]]
    {
      slots := slots[last := d + slots[last][|d|..]];
      last := Following(last);
      elems := elems + 1;
    }

    /** Queue::_read */
    method Take(n: nat) returns (d: Data)
      requires Valid() && elems >= 1 && n <= elemSize
      modifies this
      ensures Valid() && elems == old(elems) - 1 && slots == old(slots)
      ensures d == old(slots[first])[..n]
    {
      d := slots[first][..n];
      first := Following(first);
      elems := elems - 1;
    }

    /** Queue::fetch: the element stays in its slot, which is free for the producer again. */
    method Fetch() returns (slot: nat)
      requires Valid() && elems >= 1
      modifies this
      ensures Valid() && elems == old(elems) - 1 && slots == old(slots) && slot == old(first)
    {
      slot := first;
      first := Following(first);
      elems := elems - 1;
    }

    /** Queue::reserve: the slot counts as filled before the producer fills it. */
    method Reserve() returns (slot: nat)
      requires Valid() && elems < capacity
      modifies this
      ensures Valid() && elems == old(elems) + 1 && slots == old(slots) && first == old(first) && slot == old(last)
    {
      slot := last;
      last := Following(last);
      elems := elems + 1;
    }

    /** One element goes through the queue: the bytes put in come out first. */
    method Pass(piece: Data, n: nat) returns (d: Data)
      requires Valid() && elems == 0 && |piece| <= n <= elemSize
      modifies this
      ensures Valid() && elems == 0 && |d| == n && piece <= d
    {
      Put(piece);
      d := Take(n);
    }

    /**
     The other side sends `sent` with Queue::write while this side asks for `wanted` bytes with
     Queue::read: it gets them if and only if as many elements are sent as it waits for.
     */
    method Exchange(sent: Data, wanted: nat) returns (ok: bool, got: Data)
      requires Valid() && elems == 0 && |sent| <= wanted
      modifies this
      ensures ok <==> |Lengths(wanted, elemSize)| == |Lengths(|sent|, elemSize)|
      ensures ok ==> Valid() && elems == 0 && |got| == wanted && sent <= got
    {
      var pieces := WriteLoop(sent, elemSize);
      var lengths := ReadLoop(wanted, elemSize);
      LengthsCoverPieces(sent, wanted, elemSize);
      PiecesRoundTrip(sent, elemSize);
      PiecesFit(sent, elemSize);
      LengthsFit(wanted, elemSize);
      got := [];
      var i := 0;
      assert pieces[..0] == [] && lengths[..0] == [];
      while i < |lengths|
        invariant Valid() && elems == 0
        invariant 0 <= i <= |lengths| && i <= |pieces|
        invariant Concat(pieces[..i]) <= got && |got| == Sum(lengths[..i])
        invariant i < |pieces| ==> got == Concat(pieces[..i])
      {
        if i == |pieces| {
          // no element is left, and none will come
          return false, got;
        }
        var d := Pass(pieces[i], lengths[i]);
        got := got + d;
        ConcatSnoc(pieces, i);
        SumSnoc(lengths, i);
        i := i + 1;
      }
      assert pieces[..|pieces|] == pieces && lengths[..|lengths|] == lengths;
      SumLengths(wanted, elemSize);
      ok := true;
    }
  }

  function Sum(a: seq<nat>): nat {
    if a == [] then 0 else a[0] + Sum(a[1..])
  }

  lemma {:induction false} SumSnoc(a: seq<nat>, i: nat)
    requires i < |a|
    ensures Sum(a[..i + 1]) == Sum(a[..i]) + a[i]
  {
    if i == 0 {
      assert a[..1] == [a[0]] && a[..0] == [];
    } else {
      assert a[..i + 1][1..] == a[1..][..i] && a[..i][1..] == a[1..][..i - 1];
      SumSnoc(a[1..], i - 1);
    }
  }

  lemma {:induction false} SumLengths(n: nat, elemSize: nat)
    requires elemSize >= 1
    ensures Sum(Lengths(n, elemSize)) == n
  {
    if n > elemSize {
      SumLengths(n - elemSize, elemSize);
      assert Lengths(n, elemSize)[1..] == Lengths(n - elemSize, elemSize);
    } else if n > 0 {
      assert Sum([n]) == n + Sum([]);
    }
  }

  lemma ConcatSnoc(p: seq<Data>, i: nat)
    requires i < |p|
    ensures Concat(p[..i + 1]) == Concat(p[..i]) + p[i]
  {
    assert p[..i + 1] == p[..i] + [p[i]];
    ConcatAppend(p[..i], [p[i]]);
    assert Concat([p[i]]) == p[i] + Concat([]);
  }

  /** A longer read waits for elements at least as long, equal but for the last one sent. */
  lemma {:induction false} LengthsCoverPieces(sent: Data, wanted: nat, elemSize: nat)
    requires elemSize >= 1 && |sent| <= wanted
    ensures |Pieces(sent, elemSize)| == |Lengths(|sent|, elemSize)| <= |Lengths(wanted, elemSize)|
    ensures forall i :: 0 <= i < |Pieces(sent, elemSize)| ==>
      |Pieces(sent, elemSize)[i]| <= Lengths(wanted, elemSize)[i]
    ensures forall i :: 0 <= i < |Pieces(sent, elemSize)| - 1 ==>
      |Pieces(sent, elemSize)[i]| == Lengths(wanted, elemSize)[i]
  {
    PiecesRoundTrip(sent, elemSize);
    if |sent| > elemSize {
      LengthsCoverPieces(sent[elemSize..], wanted - elemSize, elemSize);
    }
  }

  // ---------------------------------------------------------------------------
  // The server
  // ---------------------------------------------------------------------------

  datatype File = File(sectors: seq<Sector>, bytes: Data)

  ghost function BytesOf(files: map<Path, File>): map<Path, Data> {
    map p | p in files :: files[p].bytes
  }

  lemma BytesOfUpdate(files: map<Path, File>, p: Path, f: File)
    ensures BytesOf(files[p := f]) == BytesOf(files)[p := f.bytes]
  {
  }

  class Server {
    var files: map<Path, File>
    var path: map<int, Path>
    var cell: map<int, nat>
    var offset: map<nat, nat>

    constructor ()
      ensures Valid() && files == map[] && path == map[] && cell == map[] && offset == map[]
    {
      files, path, cell, offset := map[], map[], map[], map[];
    }

    ghost predicate Valid()
      reads this
    {
      && path.Keys == cell.Keys
      && (forall fd :: fd in path ==> fd in cell && path[fd] in files && cell[fd] in offset)
      && (forall p :: p in files ==> files[p].sectors == GapFree(|files[p].bytes|))
    }

    ghost function Contents(): map<Path, Data>
      reads this`files
    {
      BytesOf(files)
    }

    /** handle_local_read of a file that is complete for the client: the reply and the data sent. */
    method HandleRead(fd: int, count: nat) returns (reply: nat, payload: Data)
      requires Valid() && fd in path
      modifies this`offset
      ensures Valid()
      ensures payload == PlainRead(Contents()[path[fd]], old(offset)[cell[fd]], count)
      ensures reply == old(offset)[cell[fd]] + |payload|
      ensures offset == old(offset)[cell[fd] := reply]
    {
      var processOffset := offset[cell[fd]];
      var file := files[path[fd]];
      GapFreeSectorEnd(|file.bytes|, processOffset);
      var endOfSector := GetSectorEnd(file.sectors, processOffset);
      if endOfSector == SECTOR_NOT_FOUND {
        return processOffset, [];
      }
      var readSize := Min(count, endOfSector - processOffset);
      reply := processOffset + readSize;
      payload := file.bytes[processOffset..reply];
      offset := offset[cell[fd] := reply];
    }

    /** The data goes where it leaves no hole. */
    ghost predicate CanWrite(fd: int)
      requires Valid()
      reads this
    {
      fd in path && offset[cell[fd]] <= |files[path[fd]].bytes|
    }

    ghost function OffsetsAfter(fd: int, data: Data): map<nat, nat>
      requires Valid() && CanWrite(fd)
      reads this
    {
      offset[cell[fd] := offset[cell[fd]] + |data|]
    }

    ghost function ContentsAfter(fd: int, data: Data): map<Path, Data>
      requires Valid() && CanWrite(fd)
      reads this
    {
      Contents()[path[fd] := PlainWrite(Contents()[path[fd]], offset[cell[fd]], data)]
    }

    /** write_handler, once the data has come through the queue. */
    method HandleWrite(fd: int, data: Data)
      requires Valid() && CanWrite(fd) && data != []
      modifies this`files, this`offset
      ensures Valid()
      ensures offset == old(OffsetsAfter(fd, data)) && Contents() == old(ContentsAfter(fd, data))
    {
      var start := offset[cell[fd]];
      var end := start + |data|;
      var file := files[path[fd]];
      InsertGapFree(|file.bytes|, start, end);
      var written := File(Insert(file.sectors, start, end), PlainWrite(file.bytes, start, data));
      BytesOfUpdate(files, path[fd], written);
      files := files[path[fd] := written];
      offset := offset[cell[fd] := end];
    }

    method HandleSeek(fd: int, position: nat)
      requires Valid() && fd in path
      modifies this`offset
      ensures Valid() && offset == old(offset)[cell[fd] := position]
    {
      offset := offset[cell[fd] := position];
    }

    /** The new descriptor shares the offset of the old one. */
    method HandleDup(fd: int, newFd: int)
      requires Valid() && fd in path
      modifies this`path, this`cell
      ensures Valid() && path == old(path)[newFd := old(path)[fd]] && cell == old(cell)[newFd := old(cell)[fd]]
    {
      path := path[newFd := path[fd]];
      cell := cell[newFd := cell[fd]];
    }

    method HandleOpen(fd: int, name: Path, newCell: nat)
      requires Valid()
      modifies this
      ensures Valid() && path == old(path)[fd := name] && cell == old(cell)[fd := newCell]
      ensures offset == old(offset)[newCell := 0]
      ensures Contents() == if name in old(files) then old(Contents()) else old(Contents())[name := []]
    {
      if name !in files {
        BytesOfUpdate(files, name, File([], []));
        files := files[name := File([], [])];
      }
      path := path[fd := name];
      cell := cell[fd := newCell];
      offset := offset[newCell := 0];
    }

    method HandleClose(fd: int)
      requires Valid()
      modifies this`path, this`cell
      ensures Valid() && path == old(path) - {fd} && cell == old(cell) - {fd}
    {
      path := path - {fd};
      cell := cell - {fd};
    }
  }

  // ---------------------------------------------------------------------------
  // The client
  // ---------------------------------------------------------------------------

  /** The descriptor table: paths, and the offset cells that duplicates share. */
  class Client {
    var path: map<int, Path>
    var cell: map<int, nat>
    var offset: map<nat, nat>

    constructor ()
      ensures path == map[] && cell == map[] && offset == map[]
    {
      path, cell, offset := map[], map[], map[];
    }
  }

  class ReadCache {
    const line: nat
    const queue: Queue
    var slot: nat         // where `_cache` points
    var lastFd: int
    var actual: nat       // `_actual_size`
    var cacheOffset: nat  // `_cache_offset`

    constructor (lines: nat, line: nat)
      requires lines >= 1 && line >= 1
      ensures Valid() && Unread() == [] && lastFd == -1 && this.line == line && fresh(queue)
    {
      this.line := line;
      queue := new Queue(lines, line);
      slot, lastFd, actual, cacheOffset := 0, -1, 0, 0;
    }

    ghost predicate Valid()
      reads this, queue
    {
      && queue.Valid() && queue.elems == 0 && queue.elemSize == line
      && slot < queue.capacity && cacheOffset <= actual <= line
    }

    ghost function Unread(): Data
      requires Valid()
      reads this, queue
    {
      queue.slots[slot][cacheOffset..actual]
    }

    /** ReadCache::_read */
    method Copy(count: nat) returns (d: Data)
      requires Valid() && count <= actual - cacheOffset
      modifies this`cacheOffset
      ensures Valid() && d == old(Unread())[..count] && Unread() == old(Unread())[count..]
    {
      d := queue.slots[slot][cacheOffset..cacheOffset + count];
      cacheOffset := cacheOffset + count;
    }

    /** ReadCache::flush */
    method Flush(client: Client, server: Server)
      requires Valid() && server.Valid()
      requires Unread() != [] ==> lastFd in client.cell && client.cell[lastFd] in client.offset
      requires client.cell == server.cell
      modifies this`actual, this`cacheOffset, server`offset
      ensures Valid() && server.Valid() && Unread() == []
      ensures server.offset == if old(Unread()) == [] then old(server.offset)
                               else old(server.offset)[client.cell[lastFd] := client.offset[client.cell[lastFd]]]
    {
      if cacheOffset != actual {
        actual, cacheOffset := 0, 0;
        server.HandleSeek(lastFd, client.offset[client.cell[lastFd]]);
      }
    }

    /** Keep the data of a reply: it fits one element, which the cache points into. */
    method Load(payload: Data)
      requires Valid() && |payload| <= line
      modifies this`slot, this`actual, this`cacheOffset, queue
      ensures Valid() && Unread() == payload && cacheOffset == 0 && actual == |payload|
    {
      actual := |payload|;
      cacheOffset := 0;
      if actual > 0 {
        queue.Put(payload);
        slot := queue.Fetch();
      }
      assert queue.slots[slot][0..actual] == payload;
    }
  }

  class WriteCache {
    const line: nat
    const queue: Queue
    var reserved: bool  // `_cache` is not null
    var slot: nat       // where `_cache` points
    var fd: int
    var actual: nat     // `_actual_size`

    constructor (lines: nat, line: nat)
      requires lines >= 1 && line >= 1
      ensures Valid() && Pending() == [] && fd == -1 && this.line == line && fresh(queue)
    {
      this.line := line;
      queue := new Queue(lines, line);
      reserved, slot, fd, actual := false, 0, -1, 0;
    }

    /** A reserved slot is the oldest element of the queue, and holds the pending bytes. */
    ghost predicate Valid()
      reads this, queue
    {
      && queue.Valid() && queue.elemSize == line
      && queue.elems == (if reserved then 1 else 0)
      && (if reserved then slot == queue.first && 0 < actual <= line else actual == 0)
    }

    ghost function Pending(): Data
      requires Valid()
      reads this, queue
    {
      if reserved then queue.slots[slot][..actual] else []
    }

    /** WriteCache::flush: the server takes the reserved element and writes its bytes. */
    method Flush(server: Server)
      requires Valid() && server.Valid()
      requires Pending() != [] ==> server.CanWrite(fd)
      modifies this`reserved, this`actual, queue, server`files, server`offset
      ensures Valid() && server.Valid() && Pending() == []
      ensures server.offset == if old(Pending()) == [] then old(server.offset)
                               else old(server.OffsetsAfter(fd, Pending()))
      ensures server.Contents() == if old(Pending()) == [] then old(server.Contents())
                                   else old(server.ContentsAfter(fd, Pending()))
    {
      if actual != 0 {
        var data := queue.Take(actual);
        server.HandleWrite(fd, data);
        reserved := false;
        actual := 0;
      }
    }

    /** The part of WriteCache::_write before its flush. */
    method Fill(data: Data)
      requires Valid() && data != [] && |data| <= line - actual
      modifies this`reserved, this`slot, this`actual, queue
      ensures Valid() && Pending() == old(Pending()) + data
    {
      if !reserved {
        slot := queue.Reserve();
        reserved := true;
      }
      var element := queue.slots[slot];
      queue.slots := queue.slots[slot := element[..actual] + data + element[actual + |data|..]];
      actual := actual + |data|;
    }
  }
}
