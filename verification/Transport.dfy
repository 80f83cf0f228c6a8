/**
 Chunked transport over the single-producer, single-consumer ring: Queue::write splits a payload
 into elements and a remainder, Queue::read gathers them (capio/common/queue.hpp:104-150).
 */
module Transport {
  import opened Bytes
  import opened Ring

  /** The pieces of a payload: full elements, then what is left. */
  function Pieces(d: Data, elemSize: nat): seq<Data>
    requires elemSize >= 1
  {
    if d == [] then []
    else if |d| <= elemSize then [d]
    else [d[..elemSize]] + Pieces(d[elemSize..], elemSize)
  }

  function Lengths(n: nat, elemSize: nat): seq<nat>
    requires elemSize >= 1
  {
    if n == 0 then []
    else if n <= elemSize then [n]
    else [elemSize] + Lengths(n - elemSize, elemSize)
  }

  /** Every piece holds a byte at least and fits an element. */
  lemma {:induction false} PiecesFit(d: Data, elemSize: nat)
    requires elemSize >= 1
    ensures forall k :: 0 <= k < |Pieces(d, elemSize)| ==> 0 < |Pieces(d, elemSize)[k]| <= elemSize
  {
    if |d| > elemSize { PiecesFit(d[elemSize..], elemSize); }
  }

  lemma {:induction false} LengthsFit(n: nat, elemSize: nat)
    requires elemSize >= 1
    ensures forall k :: 0 <= k < |Lengths(n, elemSize)| ==> 0 < Lengths(n, elemSize)[k] <= elemSize
  {
    if n > elemSize { LengthsFit(n - elemSize, elemSize); }
  }

  function Concat(p: seq<Data>): Data {
    if p == [] then [] else p[0] + Concat(p[1..])
  }

  lemma {:induction false} ConcatAppend(p: seq<Data>, q: seq<Data>)
    ensures Concat(p + q) == Concat(p) + Concat(q)
  {
    if p == [] {
      assert p + q == q;
    } else {
      assert (p + q)[1..] == p[1..] + q;
      ConcatAppend(p[1..], q);
    }
  }

  /** The pieces put back together are the payload, and nReads of the same length match them. */
  lemma {:induction false} PiecesRoundTrip(d: Data, elemSize: nat)
    requires elemSize >= 1
    ensures Concat(Pieces(d, elemSize)) == d
    ensures |Pieces(d, elemSize)| == |Lengths(|d|, elemSize)|
    ensures forall k :: 0 <= k < |Pieces(d, elemSize)| ==> |Pieces(d, elemSize)[k]| == Lengths(|d|, elemSize)[k]
  {
    if |d| > elemSize {
      PiecesRoundTrip(d[elemSize..], elemSize);
      assert d == d[..elemSize] + d[elemSize..];
    } else if d != [] {
      assert Concat([d]) == d + Concat([]);
    }
  }

  /** A payload takes as many elements as its length divided by the element size, rounded up. */
  lemma {:induction false} LengthsCount(n: nat, elemSize: nat)
    requires elemSize >= 1
    ensures |Lengths(n, elemSize)| == (n + elemSize - 1) / elemSize
  {
    if n == 0 {
      DivUnique(elemSize - 1, elemSize, 0, elemSize - 1);
    } else if n <= elemSize {
      DivUnique(n + elemSize - 1, elemSize, 1, n - 1);
    } else {
      LengthsCount(n - elemSize, elemSize);
      var q, r := (n - 1) / elemSize, (n - 1) % elemSize;
      assert n - 1 == q * elemSize + r;
      assert n + elemSize - 1 == (q + 1) * elemSize + r;
      DivUnique(n + elemSize - 1, elemSize, q + 1, r);
    }
  }

  lemma DivUnique(n: int, m: nat, q: int, r: nat)
    requires r < m && n == q * m + r
    ensures n / m == q
  {
    ModUnique(n, m, q, r);
    var q' := n / m;
    assert q' * m == q * m;
    assert q' - q >= 1 ==> (q' - q) * m >= m;
    assert q - q' >= 1 ==> (q - q') * m >= m;
  }

  // ---------------------------------------------------------------------------
  // The loops of Queue::write and Queue::read
  // ---------------------------------------------------------------------------

  /** The calls of _write that write(data, n) makes, in order. */
  method WriteLoop(data: Data, elemSize: nat) returns (pieces: seq<Data>)
    requires elemSize >= 1
    ensures pieces == Pieces(data, elemSize)
  {
    var n, r := |data| / elemSize, |data| % elemSize;
    assert |data| == n * elemSize + r;
    pieces := [];
    var i := 0;
    while i < n
      invariant 0 <= i <= n && i * elemSize <= n * elemSize <= |data|
      invariant pieces + Pieces(data[i * elemSize..], elemSize) == Pieces(data, elemSize)
    {
      SlotsFit(i, n, elemSize);
      PieceAt(data, i, elemSize);
      var piece := data[i * elemSize..(i + 1) * elemSize];
      Assoc(pieces, [piece], Pieces(data[(i + 1) * elemSize..], elemSize));
      pieces := pieces + [piece];
      i := i + 1;
    }
    assert |data[n * elemSize..]| == r;
    if r != 0 {
      pieces := pieces + [data[n * elemSize..n * elemSize + r]];
      assert data[n * elemSize..n * elemSize + r] == data[n * elemSize..];
    }
  }

  lemma Assoc<T>(a: seq<T>, b: seq<T>, c: seq<T>)
    ensures a + (b + c) == (a + b) + c
  {
  }

  lemma PieceAt(data: Data, i: nat, elemSize: nat)
    requires elemSize >= 1 && 0 <= i * elemSize <= (i + 1) * elemSize <= |data|
    ensures Pieces(data[i * elemSize..], elemSize)
            == [data[i * elemSize..(i + 1) * elemSize]] + Pieces(data[(i + 1) * elemSize..], elemSize)
  {
    assert (i + 1) * elemSize == i * elemSize + elemSize;
    FirstPiece(data[i * elemSize..], elemSize);
    assert data[i * elemSize..][elemSize..] == data[(i + 1) * elemSize..];
    assert data[i * elemSize..][..elemSize] == data[i * elemSize..(i + 1) * elemSize];
  }

  lemma SlotsFit(i: nat, n: nat, elemSize: nat)
    requires i < n
    ensures 0 <= i * elemSize <= (i + 1) * elemSize <= n * elemSize
  {
    assert n * elemSize == (i + 1) * elemSize + (n - i - 1) * elemSize;
  }

  lemma FirstPiece(d: Data, elemSize: nat)
    requires 1 <= elemSize <= |d|
    ensures Pieces(d, elemSize) == [d[..elemSize]] + Pieces(d[elemSize..], elemSize)
  {
    if |d| == elemSize { assert d[..elemSize] == d && d[elemSize..] == []; }
  }

  /** The lengths that read(buffer, n) passes to _read, in order. */
  method ReadLoop(n: nat, elemSize: nat) returns (lengths: seq<nat>)
    requires elemSize >= 1
    ensures lengths == Lengths(n, elemSize)
  {
    var nReads, r := n / elemSize, n % elemSize;
    LengthsShape(n, elemSize, nReads, r);
    lengths := [];
    var i := 0;
    while i < nReads
      invariant 0 <= i <= nReads && |lengths| == i
      invariant forall k :: 0 <= k < i ==> lengths[k] == elemSize
    {
      lengths := lengths + [elemSize];
      i := i + 1;
    }
    if r != 0 {
      lengths := lengths + [r];
    }
  }

  lemma {:induction false} LengthsShape(n: nat, elemSize: nat, q: nat, r: nat)
    requires elemSize >= 1 && n == q * elemSize + r && r < elemSize
    ensures |Lengths(n, elemSize)| == q + (if r != 0 then 1 else 0)
    ensures forall k :: 0 <= k < q ==> Lengths(n, elemSize)[k] == elemSize
    ensures r != 0 ==> Lengths(n, elemSize)[q] == r
    decreases q
  {
    if q == 0 {
      assert n == r;
    } else {
      assert n - elemSize == (q - 1) * elemSize + r >= 0;
      LengthsShape(n - elemSize, elemSize, q - 1, r);
      assert Lengths(n, elemSize) == [elemSize] + Lengths(n - elemSize, elemSize);
    }
  }

  // ---------------------------------------------------------------------------
  // One producer, one consumer, any interleaving
  // ---------------------------------------------------------------------------

  function AllPieces(payloads: seq<Data>, elemSize: nat): seq<Data>
    requires elemSize >= 1
  {
    if payloads == [] then [] else Pieces(payloads[0], elemSize) + AllPieces(payloads[1..], elemSize)
  }

  function AllLengths(payloads: seq<Data>, elemSize: nat): seq<nat>
    requires elemSize >= 1
  {
    if payloads == [] then [] else Lengths(|payloads[0]|, elemSize) + AllLengths(payloads[1..], elemSize)
  }

  lemma {:induction false} AllLengthsMatch(payloads: seq<Data>, elemSize: nat)
    requires elemSize >= 1
    ensures |AllPieces(payloads, elemSize)| == |AllLengths(payloads, elemSize)|
    ensures forall k :: 0 <= k < |AllPieces(payloads, elemSize)| ==>
      |AllPieces(payloads, elemSize)[k]| == AllLengths(payloads, elemSize)[k]
  {
    if payloads != [] {
      PiecesRoundTrip(payloads[0], elemSize);
      AllLengthsMatch(payloads[1..], elemSize);
    }
  }

  /** What a reader of the given sizes puts in its buffers out of the elements it got. */
  function Assemble(got: seq<Data>, sizes: seq<nat>, elemSize: nat): seq<Data>
    requires elemSize >= 1
    decreases |sizes|
  {
    if sizes == [] then []
    else
      var k := |Lengths(sizes[0], elemSize)|;
      if k <= |got| then [Concat(got[..k])] + Assemble(got[k..], sizes[1..], elemSize)
      else [Concat(got)] + Assemble([], sizes[1..], elemSize)
  }

  function Sizes(payloads: seq<Data>): seq<nat> {
    if payloads == [] then [] else [|payloads[0]|] + Sizes(payloads[1..])
  }

  lemma {:induction false} AssembleAllPieces(payloads: seq<Data>, elemSize: nat)
    requires elemSize >= 1
    ensures Assemble(AllPieces(payloads, elemSize), Sizes(payloads), elemSize) == payloads
  {
    if payloads != [] {
      AssembleAllPieces(payloads[1..], elemSize);
      AssembleFirst(payloads[0], AllPieces(payloads[1..], elemSize), Sizes(payloads[1..]), elemSize);
      assert payloads == [payloads[0]] + payloads[1..];
    }
  }

  lemma AssembleFirst(d: Data, rest: seq<Data>, sizes: seq<nat>, elemSize: nat)
    requires elemSize >= 1
    ensures Assemble(Pieces(d, elemSize) + rest, [|d|] + sizes, elemSize) == [d] + Assemble(rest, sizes, elemSize)
  {
    var p := Pieces(d, elemSize);
    PiecesRoundTrip(d, elemSize);
    assert (p + rest)[..|p|] == p && (p + rest)[|p|..] == rest;
    assert ([|d|] + sizes)[1..] == sizes;
  }

  function Behind(th: Thread): nat {
    if th.phase == Copied || th.phase == Advanced || th.phase == Posted then 1 else 0
  }

  /** How far the writer is through the pieces. */
  ghost predicate WriterAt(th: Thread, written: seq<Data>, pieces: seq<Data>) {
    && th.job.Write?
    && Behind(th) <= |written| <= |pieces|
    && th.job.pieces == pieces[|written| - Behind(th)..]
    && forall k :: 0 <= k < |written| ==> pieces[k] <= written[k]
  }

  /** How far the reader is through the lengths, and that what it got are the pieces. */
  ghost predicate ReaderAt(th: Thread, taken: seq<Data>, pieces: seq<Data>, lengths: seq<nat>) {
    && th.job.Read?
    && Behind(th) <= |taken| <= |pieces| == |lengths|
    && th.job.lengths == lengths[|taken| - Behind(th)..]
    && th.job.got == pieces[..|taken|]
  }

  ghost predicate SameLengths(pieces: seq<Data>, lengths: seq<nat>) {
    |pieces| == |lengths| && forall k :: 0 <= k < |pieces| ==> |pieces[k]| == lengths[k]
  }

  ghost predicate InStep(s: State, pieces: seq<Data>, lengths: seq<nat>) {
    && |s.threads| == 2
    && SameLengths(pieces, lengths)
    && WriterAt(s.threads[0], s.written, pieces)
    && ReaderAt(s.threads[1], s.taken, pieces, lengths)
  }

  lemma WriterCopies(th: Thread, th': Thread, written: seq<Data>, e: Data, pieces: seq<Data>)
    requires WriterAt(th, written, pieces) && th.phase == Locked && th.job.pieces != []
    requires th' == th.(phase := Copied) && th.job.pieces[0] <= e
    ensures WriterAt(th', written + [e], pieces)
  {
    assert th.job.pieces[0] == pieces[|written|];
  }

  lemma ReaderCopies(th: Thread, th': Thread, taken: seq<Data>, e: Data, pieces: seq<Data>, lengths: seq<nat>)
    requires ReaderAt(th, taken, pieces, lengths) && SameLengths(pieces, lengths)
    requires th.phase == Locked && th.job.lengths != []
    requires pieces[|taken|] <= e
    requires th' == Thread(th.job.(got := th.job.got + [e[..th.job.lengths[0]]]), Copied)
    ensures ReaderAt(th', taken + [e], pieces, lengths)
  {
    var r := |taken|;
    assert th.job.lengths[0] == lengths[r] == |pieces[r]|;
    assert e[..lengths[r]] == pieces[r];
    assert pieces[..r + 1] == pieces[..r] + [pieces[r]];
  }

  lemma ProducerKeepsWriterAt(s: State, pieces: seq<Data>)
    requires Inv(s) && Enabled(s, 0) && WriterAt(s.threads[0], s.written, pieces)
    ensures WriterAt(Step(s, 0).threads[0], Step(s, 0).written, pieces)
  {
    hide Exclusive, SingleOrLocking, Accounts, Offsets;
    assert Fits(s.threads[0], s.elemSize);
    if s.threads[0].phase == Locked {
      WriteKeepsHolds(s, 0);
      ghost var s' := Step(s, 0);
      var e := s'.written[|s.written|];
      WriterCopies(s.threads[0], s'.threads[0], s.written, e, pieces);
      assert s'.written == s.written + [e];
    } else if s.threads[0].phase == Posted {
      assert s.threads[0].job.pieces[1..] == pieces[|s.written|..];
    }
  }

  lemma ProducerKeepsInStep(s: State, pieces: seq<Data>, lengths: seq<nat>)
    requires Inv(s) && InStep(s, pieces, lengths) && Enabled(s, 0)
    ensures InStep(Step(s, 0), pieces, lengths)
  {
    StepFrame(s, 0);
    ProducerKeepsWriterAt(s, pieces);
    assert Step(s, 0).threads[1] == s.threads[1] && Step(s, 0).taken == s.taken;
  }

  lemma ConsumerKeepsReaderAt(s: State, pieces: seq<Data>, lengths: seq<nat>)
    requires Inv(s) && Enabled(s, 1) && InStep(s, pieces, lengths)
    ensures ReaderAt(Step(s, 1).threads[1], Step(s, 1).taken, pieces, lengths)
  {
    hide Exclusive, SingleOrLocking, Accounts, Offsets, Holds;
    assert Fits(s.threads[1], s.elemSize);
    if s.threads[1].phase == Locked {
      ReadTakesOldest(s, 1);
      var e := s.written[|s.taken|];
      assert pieces[|s.taken|] <= e;
      ReaderCopies(s.threads[1], Step(s, 1).threads[1], s.taken, e, pieces, lengths);
    } else if s.threads[1].phase == Posted {
      assert s.threads[1].job.lengths[1..] == lengths[|s.taken|..];
    }
  }

  lemma ConsumerKeepsInStep(s: State, pieces: seq<Data>, lengths: seq<nat>)
    requires Inv(s) && InStep(s, pieces, lengths) && Enabled(s, 1)
    ensures InStep(Step(s, 1), pieces, lengths)
  {
    StepFrame(s, 1);
    ConsumerKeepsReaderAt(s, pieces, lengths);
    assert Step(s, 1).threads[0] == s.threads[0] && Step(s, 1).written == s.written;
  }

  lemma {:induction false} RunKeepsInStep(s: State, run: seq<nat>, pieces: seq<Data>, lengths: seq<nat>)
    requires Inv(s) && InStep(s, pieces, lengths) && IsRun(s, run)
    ensures InStep(Final(s, run), pieces, lengths)
    decreases |run|
  {
    if run != [] {
      StepKeepsInv(s, run[0]);
      if run[0] == 0 { ProducerKeepsInStep(s, pieces, lengths); } else { ConsumerKeepsInStep(s, pieces, lengths); }
      RunKeepsInStep(Step(s, run[0]), run[1..], pieces, lengths);
    }
  }

  /** A new unlocked queue, a writer of the payloads, and a reader of the same lengths. */
  ghost predicate Starts(s: State, payloads: seq<Data>) {
    && Initial(s) && !s.locking
    && s.threads == [Thread(Write(AllPieces(payloads, s.elemSize)), Waiting),
                     Thread(Read(AllLengths(payloads, s.elemSize), []), Waiting)]
  }

  /**
   Every run of a writer and a reader that cannot go on has delivered every payload unchanged
   and left the queue empty, whatever the interleaving and however long the payloads.
   */
  lemma ChunkedTransport(s: State, payloads: seq<Data>, run: seq<nat>)
    requires Starts(s, payloads) && IsRun(s, run)
    requires forall t: nat :: !Enabled(Final(s, run), t)
    ensures var f := Final(s, run);
            && |f.threads| == 2 && f.threads[1].job.Read?
            && Idle(f.threads[0]) && Idle(f.threads[1])
            && Assemble(f.threads[1].job.got, Sizes(payloads), s.elemSize) == payloads
            && f.elems == 0 && f.empty == f.capacity && f.first == f.last
  {
    var pieces, lengths := AllPieces(payloads, s.elemSize), AllLengths(payloads, s.elemSize);
    AllLengthsMatch(payloads, s.elemSize);
    InitialInv(s);
    RunKeepsInv(s, run);
    RunKeepsInStep(s, run, pieces, lengths);
    StuckMeansUnmatched(s, run);
    var f := Final(s, run);
    BothIdle(f, pieces, lengths);
    assert f.threads[1].job.got == pieces;
    AssembleAllPieces(payloads, s.elemSize);
    AllWaitingOffsets(f);
  }

  lemma AllWaitingOffsets(f: State)
    requires Inv(f) && |f.written| == |f.taken|
    requires forall i :: 0 <= i < |f.threads| ==> f.threads[i].phase == Waiting
    ensures f.first == f.last
  {
    CountNone(f.threads, WriterLags);
    CountNone(f.threads, ReaderLags);
  }

  lemma BothIdle(f: State, pieces: seq<Data>, lengths: seq<nat>)
    requires Inv(f) && InStep(f, pieces, lengths)
    requires forall i :: 0 <= i < |f.threads| ==> f.threads[i].phase == Waiting
    requires f.elems == |f.written| - |f.taken| && f.elems + f.empty == f.capacity
    requires !Idle(f.threads[0]) ==> f.empty == 0
    requires !Idle(f.threads[1]) ==> f.elems == 0
    ensures Idle(f.threads[0]) && Idle(f.threads[1])
    ensures |f.written| == |f.taken| == |pieces|
  {
    assert |f.threads[0].job.pieces| == |pieces| - |f.written|;
    assert |f.threads[1].job.lengths| == |pieces| - |f.taken|;
  }
}
