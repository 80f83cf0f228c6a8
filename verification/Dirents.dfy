/**
 Directories: each entry is a record of fixed size in the data of the directory, and getdents
 returns as many whole records as fit in the buffer of the caller, from the offset of the
 descriptor on. The directory is committed and on this server.
 */
module Dirents {
  import opened Bytes

  /** sizeof(linux_dirent64), with its padding */
  const RECORD_SIZE: nat := 280

  const DT_DIR: nat := 4
  const DT_REG: nat := 8

  datatype Record = Record(ino: int, off: int, reclen: nat, kind: nat, name: string)

  /** An entry as its creator names it. */
  datatype Entry = Entry(ino: int, name: string)

  // ---------------------------------------------------------------------------
  // Specification
  // ---------------------------------------------------------------------------

  /** The record of the `i`-th entry: its offset is that of the next record. */
  function RecordOf(e: Entry, i: nat, directory: bool): Record {
    Record(e.ino, (i + 1) * RECORD_SIZE, RECORD_SIZE, if directory then DT_DIR else DT_REG, e.name)
  }

  ghost predicate Holds(stored: seq<Record>, entries: seq<Entry>, directory: bool) {
    |stored| == |entries| && forall i :: 0 <= i < |stored| ==> stored[i] == RecordOf(entries[i], i, directory)
  }

  /** The index past the last whole record that a read of `count` bytes at the `first` record returns. */
  function LastOf(first: nat, count: nat, n: nat): nat {
    Max(first, Min(first + count / RECORD_SIZE, n))
  }

  lemma WholeRecords(first: nat, count: nat, n: nat)
    ensures Min(first * RECORD_SIZE + count, n * RECORD_SIZE) / RECORD_SIZE == Min(first + count / RECORD_SIZE, n)
  {
    Quotient(first + count / RECORD_SIZE, count % RECORD_SIZE);
    Quotient(n, 0);
    assert count == count / RECORD_SIZE * RECORD_SIZE + count % RECORD_SIZE;
    if first + count / RECORD_SIZE < n {
      assert (first + count / RECORD_SIZE + 1) * RECORD_SIZE <= n * RECORD_SIZE;
    }
  }

  lemma Quotient(q: nat, r: nat)
    requires r < RECORD_SIZE
    ensures (q * RECORD_SIZE + r) / RECORD_SIZE == q
  {
  }

  // ---------------------------------------------------------------------------
  // The directory, and one descriptor of it
  // ---------------------------------------------------------------------------

  class Directory {
    const directory: bool
    var stored: seq<Record>
    var serverOffset: int
    var clientOffset: int
    ghost var entries: seq<Entry>

    ghost predicate Valid()
      reads this
    {
      Holds(stored, entries, directory)
    }

    /** The descriptor stands at a record, at the client as at the server. */
    ghost predicate At(i: nat)
      reads this
    {
      serverOffset == clientOffset == i * RECORD_SIZE
    }

    constructor (directory: bool)
      ensures Valid() && entries == [] && At(0) && this.directory == directory
    {
      this.directory := directory;
      stored, entries := [], [];
      serverOffset, clientOffset := 0, 0;
    }

    /** The stored size of the directory. */
    function Size(): nat
      reads this
    {
      |stored| * RECORD_SIZE
    }

    /** addDirectoryEntry */
    method AddEntry(e: Entry)
      requires Valid()
      modifies `stored, `entries
      ensures Valid() && entries == old(entries) + [e]
    {
      var dataSize := Size() + RECORD_SIZE;
      stored := stored + [Record(e.ino, dataSize, RECORD_SIZE, if directory then DT_DIR else DT_REG, e.name)];
      entries := entries + [e];
    }

    /** send_dirent_to_client: the reply is the new offset, and the records that go with it. */
    method SendDirents(count: nat, ghost i: nat) returns (end: int, records: seq<Record>)
      requires Valid() && serverOffset == i * RECORD_SIZE
      modifies `serverOffset
      ensures i <= |stored| ==> records == stored[i..LastOf(i, count, |stored|)]
      ensures i > |stored| ==> records == []
      ensures end == serverOffset == old(serverOffset) + |records| * RECORD_SIZE
    {
      var firstEntry := serverOffset / RECORD_SIZE;
      var endOfRead := Min(serverOffset + count, Size());
      var lastEntry := endOfRead / RECORD_SIZE;
      Quotient(i, 0);
      WholeRecords(i, count, |stored|);
      records := [];
      if lastEntry - firstEntry > 0 {
        var k := firstEntry;
        while k < lastEntry
          invariant firstEntry <= k <= lastEntry && records == stored[firstEntry..k]
        {
          var r := stored[k];
          assert r == RecordOf(entries[k], k, directory);
          records := records + [Record(r.ino, (k + 1) * RECORD_SIZE, RECORD_SIZE, r.kind, r.name)];
          k := k + 1;
        }
        serverOffset := serverOffset + (lastEntry - firstEntry) * RECORD_SIZE;
      }
      end := serverOffset;
    }

    /** ReadCache::read for getdents: the count is rounded down to whole records, and nothing is kept. */
    method GetDents(size: nat, ghost i: nat) returns (bytes: int, records: seq<Record>)
      requires Valid() && At(i)
      modifies `serverOffset, `clientOffset
      ensures bytes == |records| * RECORD_SIZE && |records| * RECORD_SIZE <= size
      ensures i <= |stored| ==> records == stored[i..LastOf(i, size, |stored|)]
      ensures i > |stored| ==> records == []
      ensures At(i + |records|)
    {
      var count := size / RECORD_SIZE * RECORD_SIZE;
      Quotient(size / RECORD_SIZE, 0);
      if count == 0 { return 0, []; }
      var end;
      end, records := SendDirents(count, i);
      bytes := end - clientOffset;
      clientOffset := clientOffset + bytes;
    }

    /** Directories are listed by calling getdents until it returns 0, with whatever buffers. */
    method List(sizes: nat -> nat, ghost i: nat) returns (all: seq<Record>, calls: nat)
      requires Valid() && At(i) && i <= |stored|
      requires forall k :: sizes(k) >= RECORD_SIZE
      modifies `serverOffset, `clientOffset
      ensures all == stored[i..] && At(|stored|)
    {
      all, calls := [], 0;
      ghost var at := i;
      while true
        invariant i <= at <= |stored| && At(at) && all == stored[i..at]
        decreases |stored| - at
      {
        var bytes, records := GetDents(sizes(calls), at);
        calls := calls + 1;
        if bytes == 0 { break; }
        all := all + records;
        at := at + |records|;
      }
    }

    /** lseek to the offset that a record carries: the listing resumes with the next record. */
    method ListAfter(k: nat, sizes: nat -> nat) returns (all: seq<Record>, calls: nat)
      requires Valid() && k < |stored|
      requires forall j :: sizes(j) >= RECORD_SIZE
      modifies `serverOffset, `clientOffset
      ensures all == stored[k + 1..] && At(|stored|)
    {
      assert stored[k] == RecordOf(entries[k], k, directory);
      clientOffset := stored[k].off;
      serverOffset := stored[k].off;
      all, calls := List(sizes, k + 1);
    }
  }

  /** A directory filled and then listed: every entry once, whole, and in the order of creation. */
  method FillAndList(es: seq<Entry>, directory: bool, sizes: nat -> nat) returns (all: seq<Record>)
    requires forall j :: sizes(j) >= RECORD_SIZE
    ensures |all| == |es|
    ensures forall i :: 0 <= i < |es| ==>
              && all[i].name == es[i].name && all[i].ino == es[i].ino
              && all[i].kind == (if directory then DT_DIR else DT_REG)
              && all[i].off == (i + 1) * RECORD_SIZE && all[i].reclen == RECORD_SIZE
  {
    var d := new Directory(directory);
    for k := 0 to |es|
      invariant d.Valid() && d.entries == es[..k] && d.At(0)
    {
      d.AddEntry(es[k]);
    }
    var calls;
    all, calls := d.List(sizes, 0);
  }
}
