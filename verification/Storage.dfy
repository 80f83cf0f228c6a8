/**
 The storage of a CAPIO file: a growable buffer and the sectors that hold data in it. Models
 FileBuffer with its two storage interfaces (capio/server/include/storage/file_buffer.hpp,
 interfaces/heap.hpp, interfaces/mapped.hpp), and the write and copy handlers over it
 (handlers/write.hpp, utils/common.hpp). The memory quota is any number up to the request.
 */
module Storage {
  import opened Bytes
  import opened Cells
  import opened Sectors

  /** `mapped` tells the mmap strategy from the heap one; `open` is the mapped file descriptor. */
  class FileBuffer {
    const mapped: bool
    var data: array?<Byte>
    var size: nat
    var open: bool

    constructor (mapped: bool)
      ensures Valid() && data == null && this.mapped == mapped
    {
      this.mapped := mapped;
      data, size, open := null, 0, false;
    }

    ghost predicate Valid()
      reads this
    {
      if data == null then size == 0 && !open
      else size <= data.Length && (!mapped || open ==> size == data.Length)
    }

    ghost function Held(): Data
      reads this, data
    {
      if data == null then [] else data[..]
    }

    /** FileBuffer::allocate, both forms: false when a buffer is already held. */
    method Allocate(quota: nat) returns (ok: bool)
      requires Valid()
      modifies this
      ensures Valid() && ok == (old(data) == null)
      ensures ok ==> data != null && fresh(data) && size == quota && open == mapped
      ensures !ok ==> data == old(data) && size == old(size) && open == old(open)
    {
      if data != null {
        return false;
      }
      data := new Byte[quota];
      size := quota;
      open := mapped;
      ok := true;
    }

    /**
     FileBuffer::grow: a new buffer of at least `dataSize` bytes that holds the bytes of every
     sector at the same offsets, whatever the quota grants of twice the old size.
     */
    method Grow(dataSize: nat, quota: nat, sectors: seq<Sector>) returns (ok: bool)
      requires Valid() && data != null && size < dataSize && quota <= size * 2
      requires forall i :: 0 <= i < |sectors| ==> 0 <= sectors[i].start <= sectors[i].end <= size
      modifies this
      ensures Valid() && ok == (!mapped || old(open))
      ensures ok ==> data != null && fresh(data) && size == Max(dataSize, quota) && open == old(open)
      ensures ok ==> forall x :: Covers(sectors, x) ==> 0 <= x < |old(Held())| && x < size && data[x] == old(Held())[x]
      ensures !ok ==> data == old(data) && size == old(size) && open == old(open)
    {
      if mapped && !open {
        return false;
      }
      var newSize := Max(dataSize, quota);
      var nb := new Byte[newSize];
      if mapped {
        // the file keeps every byte it holds
        forall i | 0 <= i < data.Length {
          nb[i] := data[i];
        }
      } else {
        CopySectors(data, nb, sectors);
      }
      data := nb;
      size := newSize;
      ok := true;
    }

    /** The loop of HeapStorageInterface::grow: copy the bytes of each sector. */
    static method CopySectors(from: array<Byte>, to: array<Byte>, sectors: seq<Sector>)
      requires from != to && from.Length <= to.Length
      requires forall i :: 0 <= i < |sectors| ==> 0 <= sectors[i].start <= sectors[i].end <= from.Length
      modifies to
      ensures forall x :: Covers(sectors, x) ==> 0 <= x < from.Length && to[x] == from[x]
    {
      for n := 0 to |sectors|
        invariant forall k, x :: 0 <= k < n && sectors[k].start <= x < sectors[k].end ==> to[x] == from[x]
      {
        var lo, hi := sectors[n].start, sectors[n].end;
        forall x | lo <= x < hi {
          to[x] := from[x];
        }
      }
    }

    /** MappedStorageInterface::commit: the logical size shrinks, and the buffer cannot grow again. */
    method Commit(committed: nat) returns (ok: bool)
      requires Valid() && committed <= size
      modifies this`size, this`open
      ensures Valid() && ok == (mapped && old(open))
      ensures size == (if ok then committed else old(size)) && (ok ==> !open) && (!ok ==> open == old(open))
    {
      ok := mapped && open;
      if ok {
        size := committed;
        open := false;
      }
    }
  }

  // ---------------------------------------------------------------------------
  // What a file holds
  // ---------------------------------------------------------------------------

  /** The sectors of a file, and the bytes known to have been stored in them. */
  datatype Model = Model(sectors: seq<Sector>, known: map<int, Byte>)

  /** A write of `d` at `offset`. */
  ghost function Wrote(m: Model, offset: int, d: Data): Model {
    Model(Insert(m.sectors, offset, offset + |d|), Put(m.known, offset, d))
  }

  ghost predicate Holds(held: Data, m: Model) {
    && Stored(m.sectors)
    && FileSize(m.sectors) <= |held|
    && forall x :: x in m.known ==> HoldsAt(held, m, x)
  }

  ghost predicate HoldsAt(held: Data, m: Model, x: int)
    requires x in m.known
  {
    Covers(m.sectors, x) && 0 <= x < |held| && held[x] == m.known[x]
  }

  /** A buffer at least as long that holds the bytes of every sector. */
  ghost predicate Keeps(before: Data, after: Data, sectors: seq<Sector>) {
    && |before| <= |after|
    && forall x :: Covers(sectors, x) ==> 0 <= x < |before| && after[x] == before[x]
  }

  lemma KeepsTrans(a: Data, b: Data, c: Data, sectors: seq<Sector>)
    requires Keeps(a, b, sectors) && Keeps(b, c, sectors)
    ensures Keeps(a, c, sectors)
  {
  }

  /** A buffer that keeps the sectors holds what the old one held. */
  lemma KeepsHolds(before: Data, after: Data, m: Model)
    requires Holds(before, m) && Keeps(before, after, m.sectors)
    ensures Holds(after, m)
  {
    forall x | x in m.known ensures HoldsAt(after, m, x) {
      assert HoldsAt(before, m, x);
    }
  }

  /** Bytes copied to `offset` of a buffer are what a write stores. */
  lemma HoldsWrote(held: Data, m: Model, offset: nat, d: Data)
    requires Holds(held, m) && d != [] && offset + |d| <= |held|
    ensures Holds(Overlay(held, offset, d), Wrote(m, offset, d))
  {
    hide Insert, Put;
    SectorsAfter(m.sectors, offset, offset + |d|, |held|);
    HoldsPut(held, m, Wrote(m, offset, d), offset, d);
  }

  /** The sectors stay within a buffer that holds them and the new range. */
  lemma SectorsAfter(s: seq<Sector>, a: nat, b: nat, size: nat)
    requires Stored(s) && a < b <= size && FileSize(s) <= size
    ensures SectorsFit(s, Insert(s, a, b), a, b, size)
  {
    InsertStored(s, a, b);
    InsertFileSize(s, a, b);
    InsertKeeps(s, a, b);
  }

  lemma SectorsAfterWrite(s: seq<Sector>, a: nat, b: nat, size: nat)
    requires Stored(s) && a < b <= size && FileSize(s) <= size
    ensures Stored(Insert(s, a, b)) && FileSize(Insert(s, a, b)) <= size
  {
    SectorsAfter(s, a, b, size);
  }

  ghost predicate SectorsFit(s: seq<Sector>, r: seq<Sector>, a: nat, b: nat, size: nat) {
    Stored(r) && FileSize(r) <= size && AtLeast(s, r, a, b)
  }

  lemma HoldsPut(held: Data, m: Model, n: Model, offset: nat, d: Data)
    requires Holds(held, m) && offset + |d| <= |held|
    requires SectorsFit(m.sectors, n.sectors, offset, offset + |d|, |held|)
    requires n.known == Put(m.known, offset, d)
    ensures Holds(Overlay(held, offset, d), n)
  {
    forall x | x in n.known ensures HoldsAt(Overlay(held, offset, d), n, x) {
      PutAt(m.known, offset, d, x);
      if !(offset <= x < offset + |d|) { assert HoldsAt(held, m, x); }
      OverlayAt(held, offset, d, x);
    }
  }

  class CapioFile {
    const buffer: FileBuffer
    const requested: nat
    var sectors: seq<Sector>

    constructor (mapped: bool, requested: nat)
      ensures Valid() && sectors == [] && this.requested == requested && fresh(buffer) && buffer.data == null
    {
      buffer := new FileBuffer(mapped);
      this.requested := requested;
      sectors := [];
    }

    /** Every sector lies within the buffer. */
    ghost predicate Valid()
      reads this, buffer
    {
      buffer.Valid() && Stored(sectors) && FileSize(sectors) <= buffer.size
    }

    ghost predicate Represents(m: Model)
      reads this, buffer, buffer.data
    {
      Valid() && sectors == m.sectors && Holds(buffer.Held(), m)
    }

    /** Not a mapped file that was committed. */
    ghost predicate Growable()
      reads buffer
    {
      !buffer.mapped || buffer.data == null || buffer.open
    }

    /** CapioFile::insertSector, without its locks and its notification. */
    method InsertSector(start: int, end: int)
      requires start <= end
      modifies this`sectors
      ensures sectors == Insert(old(sectors), start, end)
    {
      var newStart, newEnd := start, end;
      var itStart := LowerBound(sectors, newStart);
      LowerBoundSplits(sectors, newStart);
      if itStart != 0 && sectors[itStart - 1].end >= newStart {
        newStart := sectors[itStart - 1].start;
        newEnd := Max(newEnd, sectors[itStart - 1].end);
        itStart := itStart - 1;
      }
      var itEnd := UpperBound(sectors, newEnd + 1);
      if itEnd != 0 && sectors[itEnd - 1].end > newEnd {
        newEnd := sectors[itEnd - 1].end;
      }
      sectors := sectors[..itStart] + [Sector(newStart, newEnd)] + sectors[itEnd..];
    }

    method CreateBuffer(quota: nat, ghost m: Model)
      requires Represents(m) && quota <= requested
      modifies buffer
      ensures Represents(m) && buffer.data != null && buffer.size >= old(buffer.size)
      ensures if old(buffer.data) == null
              then fresh(buffer.data) && buffer.size == quota && buffer.open == buffer.mapped
              else buffer.data == old(buffer.data) && buffer.size == old(buffer.size) && buffer.open == old(buffer.open)
      ensures Keeps(old(buffer.Held()), buffer.Held(), sectors)
    {
      CoveredInside(sectors);
      if buffer.data == null {
        EmptyKnown(m);
        var ok := buffer.Allocate(quota);
      }
    }

    /** CapioFile::expandBuffer, as its callers use it: only past the end of the buffer. */
    method ExpandBuffer(dataSize: nat, quota: nat, ghost m: Model) returns (ok: bool)
      requires Represents(m) && buffer.data != null && buffer.size < dataSize && quota <= buffer.size * 2
      modifies buffer
      ensures Represents(m) && buffer.data != null && buffer.size >= old(buffer.size)
      ensures buffer.data == old(buffer.data) || fresh(buffer.data)
      ensures ok == (!buffer.mapped || old(buffer.open))
      ensures buffer.size == if ok then Max(dataSize, quota) else old(buffer.size)
      ensures !ok ==> buffer.mapped && !buffer.open
      ensures old(Growable()) ==> ok && Growable()
      ensures Keeps(old(buffer.Held()), buffer.Held(), sectors)
    {
      EndsIncrease(sectors);
      CoveredInside(sectors);
      ghost var before := buffer.Held();
      ok := buffer.Grow(dataSize, quota, sectors);
      assert Keeps(before, buffer.Held(), sectors);
      KeepsHolds(before, buffer.Held(), m);
    }

    /** Room for `end` bytes, as every handler that stores data makes it. */
    method MakeRoom(end: nat, firstQuota: nat, quota: nat, ghost m: Model) returns (ok: bool)
      requires Represents(m) && firstQuota <= requested
      modifies buffer
      ensures Represents(m) && buffer.data != null && buffer.size >= old(buffer.size)
      ensures buffer.data == old(buffer.data) || fresh(buffer.data)
      ensures ok ==> end <= buffer.size
      ensures ok <==> old(Growable()) || end <= old(buffer.size)
      ensures var created := if old(buffer.data) == null then firstQuota else old(buffer.size);
              buffer.size == if ok && end > created then Max(end, Min(quota, created * 2)) else created
      ensures !ok ==> buffer.mapped && !buffer.open
      ensures old(Growable()) ==> ok && Growable()
      ensures Keeps(old(buffer.Held()), buffer.Held(), sectors)
    {
      ghost var before := buffer.Held();
      CreateBuffer(firstQuota, m);
      ghost var created := buffer.Held();
      ok := true;
      if end > buffer.size {
        ok := ExpandBuffer(end, Min(quota, buffer.size * 2), m);
        KeepsTrans(before, created, buffer.Held(), sectors);
      }
    }

    /** memcpy of `d` into the buffer at `offset`. */
    method CopyIn(offset: nat, d: Data)
      requires buffer.data != null && offset + |d| <= buffer.data.Length
      modifies buffer.data
      ensures buffer.Held() == Overlay(old(buffer.Held()), offset, d)
    {
      forall i | 0 <= i < |d| {
        buffer.data[offset + i] := d[i];
      }
    }

    /**
     write_handler: make room, put the data in the buffer, and record the sector. It fails only
     on a mapped file that was committed and would have to grow.
     */
    method WriteAt(offset: nat, d: Data, firstQuota: nat, quota: nat, ghost m: Model) returns (ok: bool)
      requires Represents(m) && d != [] && firstQuota <= requested
      modifies this, buffer, buffer.data
      ensures Represents(if ok then Wrote(m, offset, d) else m)
      ensures buffer.size >= old(buffer.size) && (buffer.data == old(buffer.data) || fresh(buffer.data))
      ensures ok <==> old(Growable()) || offset + |d| <= old(buffer.size)
      ensures old(Growable()) ==> ok && Growable()
    {
      hide Insert, Put;
      ok := MakeRoom(offset + |d|, firstQuota, quota, m);
      if ok {
        HoldsWrote(buffer.Held(), m, offset, d);
        SectorsAfter(sectors, offset, offset + |d|, buffer.size);
        CopyIn(offset, d);
        InsertSector(offset, offset + |d|);
      }
    }

    /** copyFromFile: memcpy from another file, memmove within the same one. */
    method CopyFrom(src: CapioFile, offsetIn: nat, offsetOut: nat, n: nat)
      requires buffer.data != null && src.buffer.data != null
      requires offsetIn + n <= src.buffer.data.Length && offsetOut + n <= buffer.data.Length
      modifies buffer.data
      ensures buffer.Held() == Overlay(old(buffer.Held()), offsetOut, old(src.buffer.Held())[offsetIn..offsetIn + n])
    {
      var from, to := src.buffer.data, buffer.data;
      forall i | 0 <= i < n {
        to[offsetOut + i] := from[offsetIn + i];
      }
    }

    /** Copy into room already made, and record the sector. */
    method StoreCopy(src: CapioFile, offsetIn: nat, offsetOut: nat, n: nat, ghost m: Model, ghost ms: Model)
      requires Represents(m) && src.Represents(ms) && Apart(src) && n > 0
      requires buffer.data != null && offsetIn + n <= |src.buffer.Held()| && offsetOut + n <= buffer.size
      modifies this`sectors, buffer.data
      ensures Represents(Wrote(m, offsetOut, old(src.buffer.Held())[offsetIn..offsetIn + n]))
      ensures src != this ==> src.Represents(ms)
    {
      hide Insert, Put, Holds, Stored, Covers, Ordered, NonEmpty;
      ghost var d := src.buffer.Held()[offsetIn..offsetIn + n];
      HoldsWrote(buffer.Held(), m, offsetOut, d);
      SectorsAfterWrite(sectors, offsetOut, offsetOut + n, buffer.size);
      CopyFrom(src, offsetIn, offsetOut, n);
      InsertSector(offsetOut, offsetOut + n);
    }

    /**
     copy_file_range_data: copy what `src` holds at `offsetIn`, up to `count` bytes and to the end
     of its sector, to `offsetOut` of this file, which may be the same.
     */
    method CopyRange(src: CapioFile, offsetIn: nat, offsetOut: nat, count: nat, firstQuota: nat, quota: nat,
                     ghost m: Model, ghost ms: Model) returns (n: nat, ok: bool)
      requires Represents(m) && src.Represents(ms) && firstQuota <= requested
      requires Apart(src) && (src == this ==> ms == m)
      modifies this, buffer, buffer.data
      ensures n == Available(ms.sectors, offsetIn, count)
      ensures n > 0 ==> offsetIn + n <= |old(src.buffer.Held())|
      ensures Represents(if ok then Copied(m, ms, offsetIn, offsetOut, count) else m)
      ensures ok && n > 0 ==> Represents(Wrote(m, offsetOut, old(src.buffer.Held())[offsetIn..offsetIn + n]))
      ensures src != this ==> src.Represents(ms)
      ensures buffer.size >= old(buffer.size) && (buffer.data == old(buffer.data) || fresh(buffer.data))
      ensures LongestRun(ms.sectors, offsetIn, count, n)
      ensures ok <==> n == 0 || old(Growable()) || offsetOut + n <= old(buffer.size)
      ensures old(Growable()) ==> ok && Growable()
    {
      hide Insert, Put, Holds, Stored, Covers, Ordered, NonEmpty, LongestRun, Wrote, Copied;
      AvailableInside(src.sectors, offsetIn, count);
      var endOfSector := GetSectorEnd(src.sectors, offsetIn);
      n := if endOfSector == SECTOR_NOT_FOUND then 0 else Min(count, endOfSector - offsetIn);
      ok := true;
      NothingCopied(m, ms, offsetIn, offsetOut, count);
      if n > 0 {
        ghost var d := src.buffer.Held()[offsetIn..offsetIn + n];
        ok := MakeRoom(offsetOut + n, firstQuota, quota, m);
        if ok {
          assert src.buffer.Held()[offsetIn..offsetIn + n] == d;
          ghost var source := src.buffer.Held();
          StoreCopy(src, offsetIn, offsetOut, n, m, ms);
          HoldsCopied(buffer.Held(), source, m, ms, offsetIn, offsetOut, count);
        }
      }
    }

    /** The other file is this one or shares nothing with it. */
    ghost predicate Apart(src: CapioFile)
      reads buffer, src.buffer
    {
      src == this || (src.buffer != buffer && (buffer.data == null || src.buffer.data != buffer.data))
    }
  }

  /** The bytes that a file holds at `offset`, up to `count` and to the end of their run. */
  function Available(s: seq<Sector>, offset: nat, count: nat): nat {
    var end := GetSectorEnd(s, offset);
    if end == SECTOR_NOT_FOUND || end < offset then 0 else Min(count, end - offset)
  }

  lemma AvailableInside(s: seq<Sector>, offset: nat, count: nat)
    requires Stored(s)
    ensures GetSectorEnd(s, offset) == SECTOR_NOT_FOUND || offset <= GetSectorEnd(s, offset) <= FileSize(s)
    ensures LongestRun(s, offset, count, Available(s, offset, count))
    ensures Available(s, offset, count) > 0 ==> offset + Available(s, offset, count) <= FileSize(s)
  {
    GetSectorEndIsRunEnd(s, offset);
  }

  lemma EmptyKnown(m: Model)
    requires Holds([], m)
    ensures m.sectors == [] && m.known == map[]
  {
    assert forall x :: x !in m.known;
  }

  lemma CoveredInside(s: seq<Sector>)
    requires Stored(s)
    ensures forall x :: Covers(s, x) ==> 0 <= x < FileSize(s)
  {
    EndsIncrease(s);
  }

  // ---------------------------------------------------------------------------
  // Runs over two files
  // ---------------------------------------------------------------------------

  /** A write to one of two files, or a copy from one to one; the quotas are what memory allows. */
  datatype Op =
    | Write(second: bool, offset: nat, d: Data, firstQuota: nat, quota: nat)
    | Copy(fromSecond: bool, toSecond: bool, offsetIn: nat, offsetOut: nat, count: nat, firstQuota: nat, quota: nat)

  /** What is known of the output of a copy of `n` bytes, from what is known of its input. */
  function KnownCopy(known: map<int, Byte>, from: map<int, Byte>, offsetIn: int, offsetOut: int, n: nat)
    : map<int, Byte>
  {
    if n == 0 then known
    else
      var k := KnownCopy(known, from, offsetIn, offsetOut, n - 1);
      var x, y := offsetOut + n - 1, offsetIn + n - 1;
      if y in from then k[x := from[y]] else k - {x}
  }

  lemma {:induction false} KnownCopyAt(known: map<int, Byte>, from: map<int, Byte>,
                                       offsetIn: int, offsetOut: int, n: nat, x: int)
    ensures x in KnownCopy(known, from, offsetIn, offsetOut, n)
            <==> if offsetOut <= x < offsetOut + n then x - offsetOut + offsetIn in from else x in known
    ensures x in KnownCopy(known, from, offsetIn, offsetOut, n) ==>
      KnownCopy(known, from, offsetIn, offsetOut, n)[x]
      == if offsetOut <= x < offsetOut + n then from[x - offsetOut + offsetIn] else known[x]
  {
    if n > 0 { KnownCopyAt(known, from, offsetIn, offsetOut, n - 1, x); }
  }

  /** A copy, from what the input is known to hold. */
  ghost function Copied(m: Model, from: Model, offsetIn: nat, offsetOut: nat, count: nat): Model {
    var n := Available(from.sectors, offsetIn, count);
    if n == 0 then m
    else Model(Insert(m.sectors, offsetOut, offsetOut + n), KnownCopy(m.known, from.known, offsetIn, offsetOut, n))
  }

  lemma NothingCopied(m: Model, from: Model, offsetIn: nat, offsetOut: nat, count: nat)
    ensures Available(from.sectors, offsetIn, count) == 0 ==> Copied(m, from, offsetIn, offsetOut, count) == m
  {
  }

  /** The bytes copied are those the input is known to hold. */
  lemma HoldsCopied(held: Data, source: Data, m: Model, from: Model, offsetIn: nat, offsetOut: nat, count: nat)
    requires Holds(source, from)
    requires var n := Available(from.sectors, offsetIn, count);
             && n > 0 && offsetIn + n <= |source|
             && Holds(held, Wrote(m, offsetOut, source[offsetIn..offsetIn + n]))
    ensures Holds(held, Copied(m, from, offsetIn, offsetOut, count))
    ensures Copied(m, from, offsetIn, offsetOut, count).sectors
            == Wrote(m, offsetOut, source[offsetIn..offsetIn + Available(from.sectors, offsetIn, count)]).sectors
  {
    hide Insert, Available, Stored;
    var n := Available(from.sectors, offsetIn, count);
    var d := source[offsetIn..offsetIn + n];
    var w, c := Wrote(m, offsetOut, d), Copied(m, from, offsetIn, offsetOut, count);
    forall x | x in c.known ensures HoldsAt(held, c, x) {
      KnownCopyAt(m.known, from.known, offsetIn, offsetOut, n, x);
      PutAt(m.known, offsetOut, d, x);
      assert HoldsAt(held, w, x);
      if offsetOut <= x < offsetOut + n { assert HoldsAt(source, from, x - offsetOut + offsetIn); }
    }
  }

  /** The two files after an operation, as the handlers promise. */
  ghost function NextModels(ms: (Model, Model), op: Op): (Model, Model) {
    match op
    case Write(second, offset, d, _, _) =>
      if second then (ms.0, Wrote(ms.1, offset, d)) else (Wrote(ms.0, offset, d), ms.1)
    case Copy(fromSecond, toSecond, offsetIn, offsetOut, count, _, _) =>
      var from := if fromSecond then ms.1 else ms.0;
      if toSecond then (ms.0, Copied(ms.1, from, offsetIn, offsetOut, count))
      else (Copied(ms.0, from, offsetIn, offsetOut, count), ms.1)
  }

  ghost function RunModels(ms: (Model, Model), ops: seq<Op>): (Model, Model)
    decreases |ops|
  {
    if ops == [] then ms else RunModels(NextModels(ms, ops[0]), ops[1..])
  }

  /** A quota is at most what the file written to asked for: `first` or `second` bytes. */
  predicate OpOk(op: Op, first: nat, second: nat) {
    && op.firstQuota <= (if (if op.Write? then op.second else op.toSecond) then second else first)
    && (op.Write? ==> op.d != [])
  }

  ghost predicate Pair(a: CapioFile, b: CapioFile, ms: (Model, Model))
    reads a, a.buffer, a.buffer.data, b, b.buffer, b.buffer.data
  {
    && a.Represents(ms.0) && b.Represents(ms.1)
    && a != b && a.Apart(b) && b.Apart(a)
    && a.Growable() && b.Growable()
  }

  method StepWrite(a: CapioFile, b: CapioFile, op: Op, ghost ms: (Model, Model))
    requires Pair(a, b, ms) && OpOk(op, a.requested, b.requested) && op.Write?
    modifies a, a.buffer, a.buffer.data, b, b.buffer, b.buffer.data
    ensures Pair(a, b, NextModels(ms, op))
    ensures a.buffer.size >= old(a.buffer.size) && b.buffer.size >= old(b.buffer.size)
    ensures a.buffer.data == old(a.buffer.data) || fresh(a.buffer.data)
    ensures b.buffer.data == old(b.buffer.data) || fresh(b.buffer.data)
  {
    hide Insert, Put, Holds, Stored, Wrote;
    var ok;
    if op.second {
      ok := b.WriteAt(op.offset, op.d, op.firstQuota, op.quota, ms.1);
    } else {
      ok := a.WriteAt(op.offset, op.d, op.firstQuota, op.quota, ms.0);
    }
  }

  method StepCopy(a: CapioFile, b: CapioFile, op: Op, ghost ms: (Model, Model))
    requires Pair(a, b, ms) && OpOk(op, a.requested, b.requested) && op.Copy?
    modifies a, a.buffer, a.buffer.data, b, b.buffer, b.buffer.data
    ensures Pair(a, b, NextModels(ms, op))
    ensures a.buffer.size >= old(a.buffer.size) && b.buffer.size >= old(b.buffer.size)
    ensures a.buffer.data == old(a.buffer.data) || fresh(a.buffer.data)
    ensures b.buffer.data == old(b.buffer.data) || fresh(b.buffer.data)
  {
    hide Insert, Put, Holds, Stored, Copied, Wrote, Available, LongestRun;
    var from := if op.fromSecond then b else a;
    ghost var input := if op.fromSecond then ms.1 else ms.0;
    var n, ok;
    if op.toSecond {
      n, ok := b.CopyRange(from, op.offsetIn, op.offsetOut, op.count, op.firstQuota, op.quota, ms.1, input);
    } else {
      n, ok := a.CopyRange(from, op.offsetIn, op.offsetOut, op.count, op.firstQuota, op.quota, ms.0, input);
    }
  }

  /** One operation on the pair of files. */
  method Step(a: CapioFile, b: CapioFile, op: Op, ghost ms: (Model, Model))
    requires Pair(a, b, ms) && OpOk(op, a.requested, b.requested)
    modifies a, a.buffer, a.buffer.data, b, b.buffer, b.buffer.data
    ensures Pair(a, b, NextModels(ms, op))
    ensures a.buffer.size >= old(a.buffer.size) && b.buffer.size >= old(b.buffer.size)
    ensures a.buffer.data == old(a.buffer.data) || fresh(a.buffer.data)
    ensures b.buffer.data == old(b.buffer.data) || fresh(b.buffer.data)
  {
    hide Pair, NextModels;
    if op.Write? { StepWrite(a, b, op, ms); } else { StepCopy(a, b, op, ms); }
  }

  /**
   Any run of writes and copies over two files, whatever the quotas: the files end as the
   operations promise, every sector within its buffer, and the buffers only grow.
   */
  method Run(a: CapioFile, b: CapioFile, ops: seq<Op>, ghost ms: (Model, Model))
    requires Pair(a, b, ms) && forall k :: 0 <= k < |ops| ==> OpOk(ops[k], a.requested, b.requested)
    modifies a, a.buffer, a.buffer.data, b, b.buffer, b.buffer.data
    ensures Pair(a, b, RunModels(ms, ops))
    ensures a.buffer.size >= old(a.buffer.size) && b.buffer.size >= old(b.buffer.size)
    decreases |ops|
  {
    hide NextModels;
    if ops != [] {
      Step(a, b, ops[0], ms);
      Run(a, b, ops[1..], NextModels(ms, ops[0]));
    }
  }
}
