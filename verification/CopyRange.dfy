/**
 copy_file_range at the client: capio_copy_file_range and the functions it is built on. The bytes
 go through a buffer when one of the two descriptors is the kernel's, with short reads, short
 writes and errors as the kernel chooses, and are copied by the server otherwise, with whatever
 partial replies it chooses. Descriptor offsets may be shared by the two ends.
 */
module CopyRange {
  import opened Bytes

  /** The offset of an open descriptor, which duplicates of the descriptor share. */
  class DescriptorOffset {
    var value: int
  }

  /** An offset passed by the caller. */
  class CallerOffset {
    var value: int
  }

  // ---------------------------------------------------------------------------
  // Writes, also past the end of the file
  // ---------------------------------------------------------------------------

  function Padded(file: Data, size: nat): (r: Data)
    ensures |r| == Max(|file|, size)
  {
    if size <= |file| then file else file + seq(size - |file|, _ => 0)
  }

  function WriteAt(file: Data, offset: nat, d: Data): Data {
    if d == [] then file else PlainWrite(Padded(file, offset), offset, d)
  }

  lemma WriteAtTwice(file: Data, offset: nat, d: Data, e: Data)
    ensures WriteAt(WriteAt(file, offset, d), offset + |d|, e) == WriteAt(file, offset, d + e)
  {
    hide PlainWrite;
    if d == [] {
      assert d + e == e;
    } else if e == [] {
      assert d + e == d;
    } else {
      var first := PlainWrite(Padded(file, offset), offset, d);
      assert Padded(first, offset + |d|) == first;
      PlainWriteTwice(Padded(file, offset), offset, d, e);
    }
  }

  lemma WriteAtNothing(file: Data, offset: nat)
    ensures WriteAt(file, offset, []) == file
  {
  }

  /** The bytes of the range are those written, and every other byte the file had is as it was. */
  lemma WriteAtRange(file: Data, offset: nat, d: Data)
    ensures var r := WriteAt(file, offset, d);
            && |r| == (if d == [] then |file| else Max(|file|, offset + |d|))
            && (forall i :: 0 <= i < |d| ==> r[offset + i] == d[i])
            && (forall i :: 0 <= i < |file| && !(offset <= i < offset + |d|) ==> r[i] == file[i])
  {
    var r := WriteAt(file, offset, d);
    if d != [] {
      forall i | 0 <= i < |d| ensures r[offset + i] == d[i] {
        assert r[offset + i] == r[offset..offset + |d|][i];
      }
    }
  }

  // ---------------------------------------------------------------------------
  // One end of a copy
  // ---------------------------------------------------------------------------

  class End {
    const capio: bool
    const path: Path
    const cell: DescriptorOffset
    const given: CallerOffset?
    const saved: int
    var position: int

    /** capio_copy_file_range_end: the copy starts at the offset of the caller, or else of the descriptor. */
    constructor (capio: bool, path: Path, cell: DescriptorOffset, given: CallerOffset?)
      ensures this.capio == capio && this.path == path && this.cell == cell && this.given == given
      ensures saved == cell.value && position == (if given != null then given.value else cell.value)
    {
      this.capio, this.path, this.cell, this.given := capio, path, cell, given;
      saved := cell.value;
      position := if given != null then given.value else cell.value;
    }

    /** Where the next read or write happens. */
    ghost function At(): int
      reads this, cell
    {
      if capio || given != null then position else cell.value
    }

    /** Whether the copy may move the descriptor offset before it finishes. */
    predicate Moves() {
      capio || given == null
    }

    /** capio_copy_file_range_seek */
    method Seek()
      modifies cell
      ensures cell.value == position
    {
      if cell.value != position { cell.value := position; }
    }

    /** capio_copy_file_range_unread */
    method Unread(count: nat)
      modifies `position, cell
      ensures At() == old(At()) - count
      ensures !Moves() ==> cell.value == old(cell.value)
    {
      if capio || given != null {
        position := position - count;
      } else {
        cell.value := cell.value - count;
      }
    }

    /** capio_copy_file_range_finish */
    method Finish(copied: int)
      modifies `position, cell, given
      ensures given != null ==> given.value == old(given.value) + copied
      ensures given != null ==> cell.value == if capio then saved else old(cell.value)
      ensures given == null ==> position == old(position) && At() == old(At()) && cell.value == At()
    {
      if given != null {
        given.value := given.value + copied;
        if capio {
          position := saved;
          Seek();
        }
      } else if capio {
        Seek();
      }
    }
  }

  // ---------------------------------------------------------------------------
  // The files, and the calls that read and write them
  // ---------------------------------------------------------------------------

  const EIO: int := 5
  const ENOMEM: int := 12

  /**
   `kernel(k)` is the most bytes the k-th call into the kernel transfers, or minus its error;
   `partial(k)` the most bytes the k-th reply of the server copies, and `growth(k)` what other
   threads appended to the input before it.
   */
  class Machine {
    var data: map<Path, Data>
    var calls: nat
    const kernel: nat -> int
    const partial: nat -> nat
    const growth: nat -> Data

    constructor (data: map<Path, Data>, kernel: nat -> int, partial: nat -> nat, growth: nat -> Data)
      ensures this.data == data && this.kernel == kernel && this.partial == partial && this.growth == growth
    {
      this.data, this.kernel, this.partial, this.growth := data, kernel, partial, growth;
      calls := 0;
    }

    /** One of the calls into the kernel numbered `lo` to `hi` returned `v`. */
    ghost predicate Returned(v: int, lo: nat, hi: nat) {
      exists k: nat :: lo <= k < hi && kernel(k) == v
    }

    /** `error` is that of one of these calls, or the I/O error for a write of no bytes. */
    ghost predicate Caused(error: int, lo: nat, hi: nat) {
      (error < 0 && Returned(error, lo, hi)) || (error == -EIO && Returned(0, lo, hi))
    }

    lemma CausedSince(error: int, lo: nat, mid: nat, hi: nat)
      requires lo <= mid <= hi
      ensures Caused(error, mid, hi) ==> Caused(error, lo, hi)
      ensures Returned(0, mid, hi) ==> Returned(0, lo, hi)
    {
      if Returned(error, mid, hi) {
        var k: nat :| mid <= k < hi && kernel(k) == error;
        assert lo <= k < hi;
      }
      if Returned(0, mid, hi) {
        var k: nat :| mid <= k < hi && kernel(k) == 0;
        assert lo <= k < hi;
      }
    }

    lemma ReturnedNow(v: int, lo: nat, k: nat)
      requires lo <= k && kernel(k) == v
      ensures Returned(v, lo, k + 1)
    {
    }

    /** One of these calls failed, or transferred nothing. */
    ghost predicate KernelStopped(lo: nat, hi: nat) {
      exists k: nat :: lo <= k < hi && kernel(k) <= 0
    }

    /** capio_copy_file_range_read */
    method Read(e: End, count: nat) returns (n: int, d: Data)
      requires e.path in data && e.At() >= 0
      modifies `calls, e`position, e.cell
      ensures e.At() == old(e.At()) + |d| && |d| == Max(0, n) && n <= count
      ensures d != [] ==> e.At() <= |data[e.path]| && d == data[e.path][old(e.At())..e.At()]
      ensures e.capio ==> n >= 0 && d == PlainRead(data[e.path], old(e.At()), count) && calls == old(calls)
      ensures !e.capio ==> calls == old(calls) + 1 && (n < 0 ==> n == kernel(old(calls)))
      ensures !e.capio && n >= 0 ==>
                kernel(old(calls)) >= 0 && d == PlainRead(data[e.path], old(e.At()), Min(kernel(old(calls)), count))
      ensures !e.Moves() ==> e.cell.value == old(e.cell.value)
    {
      if e.capio {
        e.Seek();
        d := PlainRead(data[e.path], e.position, count);
        e.cell.value := e.cell.value + |d|;
        n := |d|;
        e.position := e.position + n;
        return;
      }
      n := kernel(calls);
      calls := calls + 1;
      d := [];
      if e.given != null {
        if n >= 0 {
          d := PlainRead(data[e.path], e.position, Min(n, count));
          n := |d|;
        }
        if n > 0 { e.position := e.position + n; }
      } else {
        if n >= 0 {
          d := PlainRead(data[e.path], e.cell.value, Min(n, count));
          n := |d|;
          e.cell.value := e.cell.value + n;
        }
      }
    }

    /** capio_copy_file_range_write */
    method Write(e: End, d: Data) returns (n: int)
      requires e.path in data && e.At() >= 0
      modifies `data, `calls, e`position, e.cell
      ensures n <= |d| && e.At() == old(e.At()) + Max(0, n)
      ensures data == old(data)[e.path := WriteAt(old(data)[e.path], old(e.At()), d[..Max(0, n)])]
      ensures if e.capio then n == |d| && calls == old(calls)
              else n == Min(kernel(old(calls)), |d|) && calls == old(calls) + 1
      ensures !e.Moves() ==> e.cell.value == old(e.cell.value)
    {
      if e.capio {
        e.Seek();
        data := data[e.path := WriteAt(data[e.path], e.position, d)];
        e.cell.value := e.cell.value + |d|;
        e.position := e.position + |d|;
        assert d[..|d|] == d;
        return |d|;
      }
      n := Min(kernel(calls), |d|);
      calls := calls + 1;
      if n > 0 {
        data := data[e.path := WriteAt(data[e.path], if e.given != null then e.position else e.cell.value, d[..n])];
        if e.given != null { e.position := e.position + n; } else { e.cell.value := e.cell.value + n; }
      }
    }

    /** capio_copy_file_range_write_all */
    method WriteAll(e: End, d: Data) returns (written: nat, error: int)
      requires e.path in data && e.At() >= 0
      modifies `data, `calls, e`position, e.cell
      ensures written <= |d| && e.At() == old(e.At()) + written
      ensures data == old(data)[e.path := WriteAt(old(data)[e.path], old(e.At()), d[..written])]
      ensures calls >= old(calls)
      ensures if written < |d| then !e.capio && Caused(error, old(calls), calls) else error == 0
      ensures !e.Moves() ==> e.cell.value == old(e.cell.value)
    {
      hide WriteAt;
      WriteAtNothing(data[e.path], e.At());
      written, error := 0, 0;
      while written < |d|
        invariant written <= |d| && error == 0 && calls >= old(calls)
        invariant e.At() == old(e.At()) + written
        invariant data == old(data)[e.path := WriteAt(old(data)[e.path], old(e.At()), d[..written])]
        invariant !e.Moves() ==> e.cell.value == old(e.cell.value)
      {
        var res := Write(e, d[written..]);
        WriteAtTwice(old(data)[e.path], old(e.At()), d[..written], d[written..][..Max(0, res)]);
        assert d[..written] + d[written..][..Max(0, res)] == d[..written + Max(0, res)];
        if res <= 0 {
          error := if res == 0 then -EIO else res;
          break;
        }
        written := written + res;
      }
    }

    /**
     One chunk of capio_copy_file_range_through_buffer: the bytes read are written, and those not
     written are given back to the input. There is more to copy unless the input ended or a call failed.
     */
    method CopyChunk(from: End, to: End, count: nat) returns (copied: nat, error: int, more: bool)
      requires from != to && from.cell != to.cell && count > 0
      requires from.path in data && to.path in data && from.path != to.path && from.At() >= 0 && to.At() >= 0
      modifies `data, `calls, from`position, from.cell, to`position, to.cell
      ensures copied <= count && from.At() == old(from.At()) + copied && to.At() == old(to.At()) + copied
      ensures IsPiece(old(data)[from.path], old(from.At()), copied)
      ensures data == old(data)[to.path := WriteAt(old(data)[to.path], old(to.At()),
                                                   Piece(old(data)[from.path], old(from.At()), copied))]
      ensures calls >= old(calls) && (more ==> copied > 0 && error == 0)
      ensures !more && error == 0 ==>
                && copied == 0
                && (|| old(from.At()) >= |old(data)[from.path]|
                    || (!from.capio && Returned(0, old(calls), calls)))
      ensures error != 0 ==> copied < count && Caused(error, old(calls), calls)
      ensures !from.Moves() ==> from.cell.value == old(from.cell.value)
      ensures !to.Moves() ==> to.cell.value == old(to.cell.value)
    {
      hide WriteAt, Returned;
      ghost var input, i, k := data[from.path], from.At(), calls;
      assert Piece(input, i, 0) == [];
      WriteAtNothing(data[to.path], to.At());
      var n, d := Read(from, count);
      if !from.capio { ReturnedNow(kernel(k), k, k); }
      if n <= 0 { return 0, n, false; }
      ghost var mid := calls;
      copied, error := WriteAll(to, d);
      CausedSince(error, k, mid, calls);
      PieceThen(input, i, 0, d, copied);
      assert Piece(input, i, copied) == d[..copied];
      more := copied == n;
      if copied < n { from.Unread(n - copied); }
    }

    /** capio_copy_file_range_through_buffer, with chunks of at most `line` bytes. */
    method ThroughBuffer(from: End, to: End, count: nat, line: nat, mapped: bool) returns (copied: nat, error: int)
      requires from != to && from.cell != to.cell && line > 0
      requires from.path in data && to.path in data && from.path != to.path && from.At() >= 0 && to.At() >= 0
      modifies `data, `calls, from`position, from.cell, to`position, to.cell
      ensures copied <= count && from.At() == old(from.At()) + copied && to.At() == old(to.At()) + copied
      ensures IsPiece(old(data)[from.path], old(from.At()), copied)
      ensures data == old(data)[to.path := WriteAt(old(data)[to.path], old(to.At()),
                                                   Piece(old(data)[from.path], old(from.At()), copied))]
      ensures calls >= old(calls) && (mapped && copied == count ==> error == 0)
      ensures error != 0 ==> if mapped then Caused(error, old(calls), calls) else error == -ENOMEM && copied == 0
      ensures !mapped ==> error == -ENOMEM
      ensures copied < count && error == 0 ==>
                || old(from.At()) + copied >= |old(data)[from.path]|
                || (!from.capio && Returned(0, old(calls), calls))
      ensures !from.Moves() ==> from.cell.value == old(from.cell.value)
      ensures !to.Moves() ==> to.cell.value == old(to.cell.value)
    {
      hide WriteAt, Returned, Caused;
      ghost var input, i, o := data[from.path], from.At(), to.At();
      copied, error := 0, 0;
      assert Piece(input, i, 0) == [];
      WriteAtNothing(data[to.path], o);
      if !mapped { return 0, -ENOMEM; }
      var chunk := Min(count, line);
      while copied < count
        invariant copied <= count && error == 0 && calls >= old(calls)
        invariant from.At() == i + copied && to.At() == o + copied && IsPiece(input, i, copied)
        invariant data == old(data)[to.path := WriteAt(old(data)[to.path], o, Piece(input, i, copied))]
        invariant !from.Moves() ==> from.cell.value == old(from.cell.value)
        invariant !to.Moves() ==> to.cell.value == old(to.cell.value)
      {
        ghost var k := calls;
        var n, e, more := CopyChunk(from, to, Min(count - copied, chunk));
        CausedSince(e, old(calls), k, calls);
        PieceJoins(input, i, copied, n);
        WriteAtTwice(old(data)[to.path], o, Piece(input, i, copied), Piece(input, i + copied, n));
        copied, error := copied + n, e;
        if !more { break; }
      }
    }

    /** The server copies all that the input has, up to `count` bytes, at each request. */
    ghost predicate WholeReplies(count: nat) {
      forall k: nat :: partial(k) >= count
    }

    /** One request: the server copies some of the bytes that the input has at `i`, which may have grown. */
    method Request(from: Path, to: Path, i: nat, o: nat, count: nat) returns (n: nat)
      requires from in data && to in data
      modifies `data, `calls
      ensures n <= count && calls == old(calls) + 1
      ensures from in data && (n == 0 && count > 0 ==> partial(old(calls)) == 0 || i >= |data[from]|)
      ensures var input := if from == to then old(data)[from] else old(data)[from] + growth(old(calls));
              && IsPiece(input, i, n)
              && data == old(data)[from := input][to := WriteAt(old(data)[to], o, Piece(input, i, n))]
              && (WholeReplies(count) ==> n == Min(count, Max(0, |input| - i)))
    {
      if from != to { data := data[from := data[from] + growth(calls)]; }
      n := Min(count, Min(partial(calls), Max(0, |data[from]| - i)));
      data := data[to := WriteAt(data[to], o, Piece(data[from], i, n))];
      calls := calls + 1;
    }

    /**
     capio_copy_file_range_on_server. The input is some continuation of what it was; a copy within
     one file must stay within its data and not overlap.
     */
    method OnServer(from: End, to: End, count: nat) returns (copied: nat, ghost input: Data)
      requires from != to && from.path in data && to.path in data && from.position >= 0 && to.position >= 0
      modifies `data, `calls, from`position, to`position
      ensures copied <= count && calls >= old(calls)
      ensures from.position == old(from.position) + copied && to.position == old(to.position) + copied
      ensures from.path in data && to.path in data
      ensures copied < count ==> calls > 0 && (partial(calls - 1) == 0 || from.position >= |data[from.path]|)
      ensures Apart(old(data), from.path, to.path, old(from.position), old(to.position), count) ==>
                && old(data)[from.path] <= input && IsPiece(input, old(from.position), copied)
                && (from.path == to.path ==> input == old(data)[from.path])
                && data == Outcome(old(data), from.path, to.path, old(from.position), old(to.position), input, copied)
      ensures from.path == to.path && WholeReplies(count) ==>
                CopiesWithin(old(data)[from.path], old(from.position), old(to.position), count, data[from.path], copied)
    {
      hide WriteAt, Piece, IsPiece, StillWithin, CopiesWithin;
      input := data[from.path];
      ghost var i, o := from.position, to.position;
      ghost var apart := Apart(data, from.path, to.path, i, o, count);
      copied := 0;
      OutcomeStarts(data, from.path, to.path, i, o);
      WithinStarts(data[from.path], i, o, count);
      NoPiece(data[from.path], i);
      ghost var file, one := data[from.path], from.path == to.path && WholeReplies(count);
      while copied < count
        invariant copied <= count && calls >= old(calls)
        invariant from.position == i + copied && to.position == o + copied
        invariant from.path in data && to.path in data
        invariant apart ==> old(data)[from.path] <= input && IsPiece(input, i, copied)
        invariant apart && from.path == to.path ==> input == old(data)[from.path]
        invariant apart ==> data == Outcome(old(data), from.path, to.path, i, o, input, copied)
        invariant one ==> StillWithin(file, i, o, count, data[from.path], copied)
      {
        ghost var before, k := data, calls;
        var n := Request(from.path, to.path, from.position, to.position, count - copied);
        if apart {
          ghost var grown := if from.path == to.path then input else input + growth(k);
          OutcomeThen(old(data), before, from.path, to.path, i, o, input, grown, copied, n, count);
          input := grown;
        }
        if one { WithinStep(file, i, o, count, before[from.path], data[from.path], copied, n); }
        if n == 0 { break; }
        copied := copied + n;
        from.position := from.position + n;
        to.position := to.position + n;
      }
      if copied == count && one { WithinEnds(file, i, o, count, data[from.path]); }
    }

    /** What capio_copy_file_range_end and the path table say of a descriptor. */
    function See(d: Descriptor, off: CallerOffset?): Seen
      requires d.open ==> d.path in data
      reads this, d.cell, off
    {
      Seen(d, StartOf(d, off), if d.open then |data[d.path]| else 0)
    }

    function Why(src: Descriptor, offIn: CallerOffset?, dst: Descriptor, offOut: CallerOffset?,
                 len: nat, flags: nat): Verdict
      requires (src.open ==> src.path in data) && (dst.open ==> dst.path in data)
      reads this, src.cell, dst.cell, offIn, offOut
    {
      Judge(See(src, offIn), See(dst, offOut), len, flags)
    }

    /** The file has no byte at `at`. */
    ghost predicate Ended(path: Path, at: int)
      requires path in data
      reads this
    {
      at >= |data[path]|
    }

    /** Either way of copying: both ends stand past the bytes copied. */
    method CopyBytes(from: End, to: End, count: nat, line: nat, mapped: bool)
      returns (copied: nat, error: int, ghost input: Data)
      requires from != to && from.path in data && to.path in data && from.At() >= 0 && to.At() >= 0 && line > 0
      requires from.capio || to.capio
      requires from.capio != to.capio ==> from.path != to.path && from.cell != to.cell
      modifies `data, `calls, from`position, from.cell, to`position, to.cell
      ensures copied <= count && from.At() == old(from.At()) + copied && to.At() == old(to.At()) + copied
      ensures !from.Moves() ==> from.cell.value == old(from.cell.value)
      ensures !to.Moves() ==> to.cell.value == old(to.cell.value)
      ensures copied == 0 && error < 0 ==> data == old(data)
      ensures from.path in data && calls >= old(calls)
      ensures from.capio && to.capio ==>
                error == 0 && (copied < count ==> calls > 0 && (partial(calls - 1) == 0 || Ended(from.path, from.At())))
      ensures from.capio != to.capio ==>
                && (copied < count && error == 0 ==>
                      Ended(from.path, from.At()) || (!from.capio && Returned(0, old(calls), calls)))
                && (error != 0 ==> if mapped then Caused(error, old(calls), calls) else error == -ENOMEM && copied == 0)
                && (!mapped ==> error == -ENOMEM)
      ensures Apart(old(data), from.path, to.path, old(from.At()), old(to.At()), count) ==>
                && old(data)[from.path] <= input && IsPiece(input, old(from.At()), copied)
                && data == Outcome(old(data), from.path, to.path, old(from.At()), old(to.At()), input, copied)
      ensures from.path == to.path && WholeReplies(count) ==>
                && from.path in data
                && CopiesWithin(old(data)[from.path], old(from.At()), old(to.At()), count, data[from.path], copied)
    {
      hide WriteAt, Piece, IsPiece, Apart, CopiesWithin;
      OutcomeStarts(data, from.path, to.path, from.At(), to.At());
      error := 0;
      if from.capio && to.capio {
        copied, input := OnServer(from, to, count);
      } else {
        input := data[from.path];
        copied, error := ThroughBuffer(from, to, count, line, mapped);
      }
    }

    /** The copy of a call that is not refused. */
    method Transfer(src: Descriptor, offIn: CallerOffset?, dst: Descriptor, offOut: CallerOffset?,
                    count: nat, line: nat, mapped: bool) returns (r: Result, ghost input: Data)
      requires src.path in data && dst.path in data && (src.capio || dst.capio)
      requires src.capio != dst.capio ==> src.path != dst.path && src.cell != dst.cell
      requires StartOf(src, offIn) >= 0 && StartOf(dst, offOut) >= 0 && line > 0
      modifies `data, `calls, src.cell, dst.cell, offIn, offOut
      ensures r.Failed? ==> data == old(data) && OffsetsMoved(src, offIn, dst, offOut, 0)
      ensures r.Copied? ==> r.n <= count && OffsetsMoved(src, offIn, dst, offOut, r.n)
      ensures !r.Skip? && (src.capio && dst.capio ==> r.Copied?)
      ensures src.path in data && calls >= old(calls)
      ensures var i := old(StartOf(src, offIn));
              r.Copied? && r.n < count ==>
                if src.capio && dst.capio then calls > 0 && (partial(calls - 1) == 0 || Ended(src.path, i + r.n))
                else Ended(src.path, i + r.n) || KernelStopped(old(calls), calls)
      ensures r.Failed? ==> if mapped then Caused(-r.errno, old(calls), calls) else r.errno == ENOMEM
      ensures src.capio != dst.capio && !mapped ==> r == Failed(ENOMEM)
      ensures var i, o := old(StartOf(src, offIn)), old(StartOf(dst, offOut));
              r.Copied? && Apart(old(data), src.path, dst.path, i, o, count) ==>
                && old(data)[src.path] <= input && IsPiece(input, i, r.n)
                && data == Outcome(old(data), src.path, dst.path, i, o, input, r.n)
      ensures var i, o := old(StartOf(src, offIn)), old(StartOf(dst, offOut));
              r.Copied? && src.path == dst.path && WholeReplies(count) ==>
                && src.path in data
                && CopiesWithin(old(data)[src.path], i, o, count, data[src.path], r.n)
    {
      hide WriteAt, Piece, IsPiece, Apart, Outcome, CopiesWithin;
      var from := new End(src.capio, src.path, src.cell, offIn);
      var to := new End(dst.capio, dst.path, dst.cell, offOut);
      var copied, error;
      copied, error, input := CopyBytes(from, to, count, line, mapped);
      FinishBoth(from, to, copied);
      r := if copied == 0 && error < 0 then Failed(-error) else Copied(copied);
    }

    /**
     capio_copy_file_range. A call that fails, for whatever reason, leaves every file and every
     offset as they were. Otherwise every offset accounts for the same count of bytes, which is
     that of the bytes copied.
     */
    method CopyFileRange(src: Descriptor, offIn: CallerOffset?, dst: Descriptor, offOut: CallerOffset?,
                         len: nat, flags: nat, line: nat, mapped: bool) returns (r: Result, ghost input: Data)
      requires (src.open ==> src.path in data) && (dst.open ==> dst.path in data)
      requires (src.capio ==> src.open) && (dst.capio ==> dst.open)
      requires src.capio != dst.capio ==> src.path != dst.path && src.cell != dst.cell
      requires line > 0 && len < UINT64
      modifies `data, `calls, src.cell, dst.cell, offIn, offOut
      ensures r.Skip? <==> !src.capio && !dst.capio
      ensures !r.Copied? ==> data == old(data) && OffsetsMoved(src, offIn, dst, offOut, 0)
      ensures r.Copied? ==> r.n <= Min(len, MAX_RW_COUNT) && OffsetsMoved(src, offIn, dst, offOut, r.n)
      ensures !r.Skip? && old(Why(src, offIn, dst, offOut, len, flags)).Refused? ==>
                r == Failed(old(Why(src, offIn, dst, offOut, len, flags)).errno)
      ensures r.Copied? ==> old(Why(src, offIn, dst, offOut, len, flags)).Accepted?
      ensures calls >= old(calls) && (r.Copied? ==> src.path in data)
      ensures var i, count := old(StartOf(src, offIn)), Min(len, MAX_RW_COUNT);
              r.Copied? && r.n < count ==>
                if src.capio && dst.capio then calls > 0 && (partial(calls - 1) == 0 || Ended(src.path, i + r.n))
                else Ended(src.path, i + r.n) || KernelStopped(old(calls), calls)
      ensures var i, count := old(StartOf(src, offIn)), Min(len, MAX_RW_COUNT);
              r.Copied? && src.capio && dst.capio && WholeReplies(count) && r.n < count ==> Ended(src.path, i + r.n)
      ensures r.Failed? && old(Why(src, offIn, dst, offOut, len, flags)).Accepted? ==>
                if mapped then Caused(-r.errno, old(calls), calls) else r.errno == ENOMEM
      ensures var i, o := old(StartOf(src, offIn)), old(StartOf(dst, offOut));
              r.Copied? && len > 0 && Apart(old(data), src.path, dst.path, i, o, Min(len, MAX_RW_COUNT)) ==>
                && old(data)[src.path] <= input && IsPiece(input, i, r.n)
                && data == Outcome(old(data), src.path, dst.path, i, o, input, r.n)
      ensures var i, o := old(StartOf(src, offIn)), old(StartOf(dst, offOut));
              r.Copied? && len > 0 && src.path == dst.path && WholeReplies(Min(len, MAX_RW_COUNT)) ==>
                && src.path in data
                && CopiesWithin(old(data)[src.path], i, o, Min(len, MAX_RW_COUNT), data[src.path], r.n)
      ensures src.capio && dst.capio && old(Why(src, offIn, dst, offOut, len, flags)).Accepted? ==> r.Copied?
    {
      hide WriteAt, Piece, IsPiece, Apart, Outcome, Wraps, Overlaps, CopiesWithin;
      input := [];
      if !src.capio && !dst.capio { return Skip, input; }
      var why := Why(src, offIn, dst, offOut, len, flags);
      if why.Refused? { return Failed(why.errno), input; }
      if len == 0 { return Copied(0), input; }
      r, input := Transfer(src, offIn, dst, offOut, Min(len, MAX_RW_COUNT), line, mapped);
    }
  }

  datatype Descriptor = Descriptor(
    capio: bool, open: bool, path: Path, cell: DescriptorOffset,
    dir: bool, regular: bool, readable: bool, writable: bool, append: bool)

  datatype Result = Skip | Failed(errno: int) | Copied(n: nat)

  function StartOf(d: Descriptor, off: CallerOffset?): int
    reads d.cell, off
  {
    if off != null then off.value else d.cell.value
  }

  /**
   Each offset of the caller moves by `n`, twice if it was passed for both ends. A descriptor
   offset moves by `n` if an end uses it for want of an offset of the caller, and is back where it
   was otherwise.
   */
  twostate predicate OffsetsMoved(src: Descriptor, offIn: CallerOffset?, dst: Descriptor, offOut: CallerOffset?, n: int)
    reads src.cell, dst.cell, offIn, offOut
  {
    var moved := (if offIn == null then {src.cell} else {}) + (if offOut == null then {dst.cell} else {});
    var passed := if offIn == offOut then n + n else n;
    && src.cell.value == old(src.cell.value) + (if src.cell in moved then n else 0)
    && dst.cell.value == old(dst.cell.value) + (if dst.cell in moved then n else 0)
    && (offIn != null ==> offIn.value == old(offIn.value) + passed)
    && (offOut != null ==> offOut.value == old(offOut.value) + passed)
  }

  /** When the two ends share a descriptor offset, the end without an offset of the caller is finished last. */
  method FinishBoth(from: End, to: End, copied: int)
    requires from != to && (from.cell == to.cell ==> from.capio && to.capio)
    modifies from`position, from.cell, from.given, to`position, to.cell, to.given
    ensures var passed := if from.given == to.given then copied + copied else copied;
            && (from.given != null ==> from.given.value == old(from.given.value) + passed)
            && (to.given != null ==> to.given.value == old(to.given.value) + passed)
    ensures from.cell == to.cell ==>
      from.cell.value == if from.given == null then old(from.At())
                         else if to.given == null then old(to.At()) else to.saved
    ensures from.cell != to.cell ==> from.cell.value == old(Restored(from)) && to.cell.value == old(Restored(to))
  {
    if from.given == null {
      to.Finish(copied);
      from.Finish(copied);
    } else {
      from.Finish(copied);
      to.Finish(copied);
    }
  }

  ghost function Restored(e: End): int
    reads e, e.cell
  {
    if e.given == null then e.At() else if e.capio then e.saved else e.cell.value
  }

  /** The bytes that capio_copy_file_range_on_server copies within a file of `size` bytes, by whole replies. */
  function CopiedWithin(size: nat, i: nat, o: nat, count: nat): nat
    decreases count
  {
    var n := Min(count, Max(0, size - i));
    if n == 0 then 0 else n + CopiedWithin(Max(size, o + n), i + n, o + n, count - n)
  }

  /** The file after it: each reply reads what the replies before it have written. */
  function FileWithin(file: Data, i: nat, o: nat, count: nat): Data
    decreases count
  {
    var n := Min(count, Max(0, |file| - i));
    if n == 0 then file else FileWithin(WriteAt(file, o, Piece(file, i, n)), i + n, o + n, count - n)
  }

  ghost predicate CopiesWithin(file: Data, i: nat, o: nat, count: nat, now: Data, copied: nat) {
    copied == CopiedWithin(|file|, i, o, count) && now == FileWithin(file, i, o, count)
  }

  /** What is left to copy leads where the whole copy leads. */
  ghost predicate StillWithin(file: Data, i: nat, o: nat, count: nat, now: Data, copied: nat) {
    && copied <= count
    && copied + CopiedWithin(|now|, i + copied, o + copied, count - copied) == CopiedWithin(|file|, i, o, count)
    && FileWithin(now, i + copied, o + copied, count - copied) == FileWithin(file, i, o, count)
  }

  lemma WithinStarts(file: Data, i: nat, o: nat, count: nat)
    ensures StillWithin(file, i, o, count, file, 0)
  {
  }

  lemma WithinEnds(file: Data, i: nat, o: nat, count: nat, now: Data)
    requires StillWithin(file, i, o, count, now, count)
    ensures CopiesWithin(file, i, o, count, now, count)
  {
  }

  lemma NoPiece(file: Data, at: int)
    ensures IsPiece(file, at, 0)
  {
  }

  lemma WithinStep(file: Data, i: nat, o: nat, count: nat, before: Data, now: Data, copied: nat, n: nat)
    requires StillWithin(file, i, o, count, before, copied) && copied < count
    requires n == Min(count - copied, Max(0, |before| - (i + copied)))
    requires now == WriteAt(before, o + copied, Piece(before, i + copied, n))
    ensures StillWithin(file, i, o, count, now, copied + n)
    ensures n == 0 ==> CopiesWithin(file, i, o, count, now, copied)
  {
    hide WriteAt;
    WriteAtRange(before, o + copied, Piece(before, i + copied, n));
    if n == 0 {
      assert Piece(before, i + copied, n) == [];
      WriteAtNothing(before, o + copied);
    }
  }

  /** A copy within one file stops at its old end if and only if it does not ask for more, or writes before it reads. */
  lemma StopsAtOldEndIff(size: nat, i: nat, o: nat, count: nat)
    requires i < size
    ensures CopiedWithin(size, i, o, count) == Min(count, size - i) <==> count <= size - i || o <= i
  {
    var n := Min(count, size - i);
    if count > size - i {
      var more := CopiedWithin(Max(size, o + n), i + n, o + n, count - n);
      assert CopiedWithin(size, i, o, count) == n + more;
      assert more == 0 <==> Max(size, o + n) <= i + n;
    }
  }

  lemma FileWithinPastEnd(a: Byte, b: Byte)
    ensures CopiedWithin(2, 0, 2, 4) == 4
    ensures FileWithin([a, b], 0, 2, 4) == [a, b, a, b, a, b]
  {
    var first, second := [a, b, a, b], [a, b, a, b, a, b];
    assert Piece([a, b], 0, 2) == [a, b] && Piece(first, 2, 2) == [a, b];
    assert WriteAt([a, b], 2, [a, b]) == first && WriteAt(first, 4, [a, b]) == second;
    assert FileWithin(first, 2, 4, 2) == FileWithin(second, 4, 6, 0) == second;
    assert CopiedWithin(4, 2, 4, 2) == 2 + CopiedWithin(6, 4, 6, 0) == 2;
  }

  lemma PastEndAccepted(d: Descriptor)
    requires d.capio && d.open && !d.dir && d.regular && d.readable && d.writable && !d.append
    ensures Judge(Seen(d, 0, 2), Seen(d, 2, 2), 4, 0) == Accepted
  {
    WrapsIff(0, 4);
    WrapsIff(2, 4);
  }

  /** A copy of four bytes at the start of a file of two to its end is accepted, and copies twice what there was. */
  method CopyPastOldEnd(a: Byte, b: Byte) returns (r: Result, after: Data)
    ensures r == Copied(4) && after == [a, b, a, b, a, b]
  {
    var m := new Machine(map["f" := [a, b]], _ => 0, _ => 4, _ => []);
    var cell := new DescriptorOffset;
    var from, to := new CallerOffset, new CallerOffset;
    from.value, to.value := 0, 2;
    var d := Descriptor(true, true, "f", cell, false, true, true, true, false);
    hide WriteAt, Piece, IsPiece, Apart, Outcome, Judge, FileWithin, CopiedWithin, OffsetsMoved;
    hide Machine.Returned, Machine.Caused, Machine.KernelStopped, Machine.Ended;
    PastEndAccepted(d);
    FileWithinPastEnd(a, b);
    ghost var input;
    r, input := m.CopyFileRange(d, from, d, to, 4, 0, 1, true);
    after := m.data["f"];
  }

  // ---------------------------------------------------------------------------
  // What is refused
  // ---------------------------------------------------------------------------

  const INT64: int := 0x8000_0000_0000_0000
  const EBADF: int := 9
  const EISDIR: int := 21
  const EINVAL: int := 22
  const EOVERFLOW: int := 75

  /** INT_MAX rounded down to a page of 4096 bytes. */
  const MAX_RW_COUNT: int := 0x7fff_f000

  datatype Seen = Seen(d: Descriptor, position: int, size: nat)

  datatype Verdict = Accepted | Refused(errno: int)

  /** Whether `position + len` wraps in 64-bit unsigned arithmetic, as the code finds out. */
  predicate Wraps(position: int, len: nat) {
    (position % UINT64 + len) % UINT64 < position % UINT64
  }

  /** The data of the range that exists when the copy starts. */
  function Existing(a: Seen, len: nat): nat {
    if a.position >= a.size then 0 else Max(0, Min(len, a.size - a.position))
  }

  predicate Overlaps(a: Seen, b: Seen, len: nat) {
    var n := Existing(a, len);
    a.d.capio && b.d.capio && a.d.path == b.d.path && b.position + n > a.position && b.position < a.position + n
  }

  /** The checks of capio_copy_file_range, in its order. */
  function Judge(a: Seen, b: Seen, len: nat, flags: nat): Verdict {
    if flags != 0 then Refused(EINVAL)
    else if !a.d.open then Refused(EBADF)
    else if !b.d.open then Refused(EBADF)
    else if a.d.dir || b.d.dir then Refused(EISDIR)
    else if !a.d.regular || !b.d.regular then Refused(EINVAL)
    else if !a.d.readable then Refused(EBADF)
    else if !b.d.writable || b.d.append then Refused(EBADF)
    else if Wraps(a.position, len) || Wraps(b.position, len) then Refused(EOVERFLOW)
    else if a.position < 0 || b.position < 0 then Refused(EINVAL)
    else if Overlaps(a, b, len) then Refused(EINVAL)
    else Accepted
  }

  /** The 64-bit test finds exactly the ranges that end past the largest 64-bit offset. */
  lemma WrapsIff(position: int, len: nat)
    requires -INT64 <= position < INT64 && len < UINT64
    ensures Wraps(position, len) <==> (if position < 0 then position + UINT64 else position) + len >= UINT64
  {
    var p := if position < 0 then position + UINT64 else position;
    assert position % UINT64 == p;
    if p + len >= UINT64 {
      assert (p + len) % UINT64 == p + len - UINT64;
    } else {
      assert (p + len) % UINT64 == p + len;
    }
  }

  /** Byte `x` of the input exists when the copy starts, and the copy reads it. */
  predicate Reads(a: Seen, len: nat, x: int) {
    a.position <= x < a.position + len && x < a.size
  }

  /** It copies such a byte to `x`. */
  predicate Writes(a: Seen, b: Seen, len: nat, x: int) {
    Reads(a, len, x - b.position + a.position)
  }

  /** The two ends are of one file, and a byte that the copy would read is one that it would write. */
  ghost predicate ShareByte(a: Seen, b: Seen, len: nat) {
    && a.d.capio && b.d.capio && a.d.path == b.d.path
    && exists x :: Reads(a, len, x) && Writes(a, b, len, x)
  }

  /** The test on the two ranges finds exactly that. */
  lemma OverlapsIff(a: Seen, b: Seen, len: nat)
    requires a.position >= 0 && b.position >= 0
    ensures Overlaps(a, b, len) <==> ShareByte(a, b, len)
  {
    if Overlaps(a, b, len) {
      var x := Max(a.position, b.position);
      assert Reads(a, len, x) && Writes(a, b, len, x);
    }
  }

  /** What a copy that is not refused may rely on, in plain arithmetic and bytes. */
  lemma AcceptedIff(a: Seen, b: Seen, len: nat, flags: nat)
    requires -INT64 <= a.position < INT64 && -INT64 <= b.position < INT64 && len < UINT64
    ensures Judge(a, b, len, flags).Accepted? <==>
            && flags == 0 && a.d.open && b.d.open && !a.d.dir && !b.d.dir && a.d.regular && b.d.regular
            && a.d.readable && b.d.writable && !b.d.append
            && 0 <= a.position && a.position + len < UINT64 && 0 <= b.position && b.position + len < UINT64
            && !ShareByte(a, b, len)
  {
    WrapsIff(a.position, len);
    WrapsIff(b.position, len);
    if a.position >= 0 && b.position >= 0 {
      OverlapsIff(a, b, len);
    }
  }

  /** The range ends past the largest 64-bit offset; a negative position counts as one of the largest. */
  predicate PastLargest(position: int, len: nat) {
    (if position < 0 then position + UINT64 else position) + len >= UINT64
  }

  /**
   Which error a refused copy reports: EISDIR, EBADF and EOVERFLOW each for its own reason, and EINVAL
   for every other one.
   */
  lemma ErrnoIff(a: Seen, b: Seen, len: nat, flags: nat)
    requires -INT64 <= a.position < INT64 && -INT64 <= b.position < INT64 && len < UINT64
    ensures var v := Judge(a, b, len, flags);
            var bothOpen := flags == 0 && a.d.open && b.d.open;
            var plain := bothOpen && !a.d.dir && !b.d.dir && a.d.regular && b.d.regular;
            var allowed := plain && a.d.readable && b.d.writable && !b.d.append;
            && (v == Refused(EISDIR) <==> bothOpen && (a.d.dir || b.d.dir))
            && (v == Refused(EBADF) <==> flags == 0 && (!bothOpen || (plain && !allowed)))
            && (v == Refused(EOVERFLOW) <==> allowed && (PastLargest(a.position, len) || PastLargest(b.position, len)))
            && (v.Refused? ==> v.errno in {EISDIR, EBADF, EOVERFLOW, EINVAL})
  {
    WrapsIff(a.position, len);
    WrapsIff(b.position, len);
  }

  /** One call copies at most the largest multiple of the page size that an `int` holds. */
  lemma MaxCountIsWholePages()
    ensures MAX_RW_COUNT % 4096 == 0 && MAX_RW_COUNT <= 0x7fff_ffff < MAX_RW_COUNT + 4096
  {
  }

  /** Two files, or two ranges of one file that its data covers and that have no byte in common. */
  ghost predicate Apart(data: map<Path, Data>, from: Path, to: Path, i: nat, o: nat, count: nat)
    requires from in data
  {
    from == to ==> i + count <= |data[from]| && (o + count <= i || i + count <= o)
  }

  /** The files after `n` bytes of `input` at `i` are copied to the output at `o`. */
  ghost function Outcome(data: map<Path, Data>, from: Path, to: Path, i: nat, o: nat,
                         input: Data, n: nat): map<Path, Data>
    requires from in data && to in data
  {
    data[from := input][to := WriteAt(data[to], o, Piece(input, i, n))]
  }

  lemma OutcomeStarts(data: map<Path, Data>, from: Path, to: Path, i: nat, o: nat)
    requires from in data && to in data
    ensures Outcome(data, from, to, i, o, data[from], 0) == data
  {
    assert Piece(data[from], i, 0) == [];
  }

  /** The input of a reply, where the copy stands, is what the whole copy takes from there. */
  lemma SameFileInput(file: Data, i: nat, o: nat, copied: nat, n: nat, count: nat)
    requires copied + n <= count && i + count <= |file| && (o + count <= i || i + count <= o)
    requires n > 0
    ensures Piece(WriteAt(file, o, Piece(file, i, copied)), i + copied, n) == Piece(file, i + copied, n)
  {
    var w := WriteAt(file, o, Piece(file, i, copied));
    WriteAtRange(file, o, Piece(file, i, copied));
    assert w[i + copied..i + copied + n] == file[i + copied..i + copied + n];
  }

  /** One more reply: the bytes it takes from `now` are those of the input. */
  lemma InputThen(now: Data, file: Data, i: nat, copied: nat, n: nat)
    requires IsPiece(file, i, copied) && IsPiece(file, i + copied, n)
    requires n > 0 ==> Piece(now, i + copied, n) == Piece(file, i + copied, n)
    ensures IsPiece(file, i, copied + n) && |Piece(file, i, copied)| == copied
    ensures Piece(file, i, copied + n) == Piece(file, i, copied) + Piece(now, i + copied, n)
  {
    if n == 0 {
      assert Piece(now, i + copied, n) == [];
    } else {
      var d := Piece(file, i + copied, n);
      PieceThen(file, i, copied, d, n);
      assert d[..n] == d;
    }
  }

  lemma OutcomeThen(data: map<Path, Data>, before: map<Path, Data>, from: Path, to: Path, i: nat, o: nat,
                    input: Data, grown: Data, copied: nat, n: nat, count: nat)
    requires from in data && to in data && Apart(data, from, to, i, o, count) && copied + n <= count
    requires before == Outcome(data, from, to, i, o, input, copied) && IsPiece(input, i, copied) && input <= grown
    requires from == to ==> input == grown == data[from]
    requires var now := if from == to then before[from] else grown; IsPiece(now, i + copied, n)
    ensures var now := if from == to then before[from] else grown;
            IsPiece(grown, i, copied + n) &&
            before[from := now][to := WriteAt(before[to], o + copied, Piece(now, i + copied, n))]
            == Outcome(data, from, to, i, o, grown, copied + n)
  {
    hide WriteAt;
    var now := if from == to then before[from] else grown;
    assert Piece(input, i, copied) == Piece(grown, i, copied);
    if from == to && n > 0 { SameFileInput(data[from], i, o, copied, n, count); }
    InputThen(now, grown, i, copied, n);
    WriteAtTwice(data[to], o, Piece(grown, i, copied), Piece(now, i + copied, n));
  }

  /** The `n` bytes of a file at an offset, when it has them. */
  function Piece(file: Data, at: int, n: nat): Data {
    if 0 <= at && at + n <= |file| then file[at..at + n] else []
  }

  ghost predicate IsPiece(file: Data, at: int, n: nat) {
    n > 0 ==> 0 <= at && at + n <= |file|
  }

  lemma PieceJoins(file: Data, at: nat, n: nat, k: nat)
    requires IsPiece(file, at, n) && IsPiece(file, at + n, k)
    ensures IsPiece(file, at, n + k) && |Piece(file, at, n)| == n
    ensures Piece(file, at, n + k) == Piece(file, at, n) + Piece(file, at + n, k)
  {
    if k == 0 { assert Piece(file, at + n, k) == []; }
  }

  lemma PieceThen(file: Data, at: nat, n: nat, d: Data, k: nat)
    requires IsPiece(file, at, n) && k <= |d|
    requires d != [] ==> at + n + |d| <= |file| && d == file[at + n..at + n + |d|]
    ensures IsPiece(file, at, n + k) && |Piece(file, at, n)| == n
    ensures Piece(file, at, n + k) == Piece(file, at, n) + d[..k]
  {
    if k > 0 { assert d[..k] == file[at + n..at + n + k]; }
  }
}
