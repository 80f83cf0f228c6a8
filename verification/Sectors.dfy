/**
 The sector set of a CAPIO file: the ordered set of intervals [start, end) that hold data.
 Models insertSector, getSectorEnd, seekData, seekHole and getFileSize of
 capio/server/src/capio_file.cpp, and relates them to the set of bytes the sectors cover.
 */
module Sectors {
  import opened Bytes

  datatype Sector = Sector(start: int, end: int)

  /** Every end lies strictly below the next start, so no two sectors touch. */
  ghost predicate Ordered(s: seq<Sector>) {
    && (forall i :: 0 <= i < |s| ==> s[i].start <= s[i].end)
    && (forall i, j :: 0 <= i < j < |s| ==> s[i].end < s[j].start)
  }

  ghost predicate NonEmpty(s: seq<Sector>) {
    forall i :: 0 <= i < |s| ==> s[i].start < s[i].end
  }

  /** Whether byte `x` lies in a sector. */
  ghost predicate Covers(s: seq<Sector>, x: int) {
    exists i :: 0 <= i < |s| && s[i].start <= x < s[i].end
  }

  ghost predicate HasStart(s: seq<Sector>, x: int) {
    exists i :: 0 <= i < |s| && s[i].start == x
  }

  // ---------------------------------------------------------------------------
  // Searching the ordered set
  // ---------------------------------------------------------------------------

  /** Index of the first sector whose start is at least `x`. */
  function LowerBound(s: seq<Sector>, x: int): (k: nat)
    ensures k <= |s|
  {
    if s == [] || s[0].start >= x then 0 else 1 + LowerBound(s[1..], x)
  }

  lemma {:induction false} LowerBoundSplits(s: seq<Sector>, x: int)
    ensures forall i :: 0 <= i < LowerBound(s, x) ==> s[i].start < x
    ensures LowerBound(s, x) < |s| ==> s[LowerBound(s, x)].start >= x
  {
    if s != [] && s[0].start < x {
      LowerBoundSplits(s[1..], x);
      assert forall i :: 1 <= i < |s| ==> s[i] == s[1..][i - 1];
    }
  }

  /** Index of the first sector whose start is above `x`. */
  function UpperBound(s: seq<Sector>, x: int): (k: nat)
    ensures k <= |s|
  {
    if s == [] || s[0].start > x then 0 else 1 + UpperBound(s[1..], x)
  }

  lemma {:induction false} UpperBoundSplits(s: seq<Sector>, x: int)
    ensures forall i :: 0 <= i < UpperBound(s, x) ==> s[i].start <= x
    ensures UpperBound(s, x) < |s| ==> s[UpperBound(s, x)].start > x
  {
    if s != [] && s[0].start <= x {
      UpperBoundSplits(s[1..], x);
      assert forall i :: 1 <= i < |s| ==> s[i] == s[1..][i - 1];
    }
  }

  lemma {:induction false} UpperBoundAtLeast(s: seq<Sector>, x: int, k: nat)
    requires k <= |s| && forall i :: 0 <= i < k ==> s[i].start <= x
    ensures UpperBound(s, x) >= k
  {
    if k > 0 {
      assert s[0].start <= x;
      UpperBoundAtLeast(s[1..], x, k - 1);
    }
  }

  // ---------------------------------------------------------------------------
  // insertSector
  // ---------------------------------------------------------------------------

  /** Index of the first sector the new one replaces: the one reaching `a` from the left, if any. */
  function FirstMerged(s: seq<Sector>, a: int): (first: nat)
    ensures first <= |s|
  {
    var k := LowerBound(s, a);
    if k > 0 && s[k - 1].end >= a then k - 1 else k
  }

  /** The sectors with those from `first` to `last` replaced by `e`. */
  function Splice(s: seq<Sector>, first: nat, last: nat, e: Sector): seq<Sector>
    requires first <= |s| && last <= |s|
  {
    s[..first] + [e] + s[last..]
  }

  function Insert(s: seq<Sector>, newStart: int, newEnd: int): seq<Sector> {
    var first := FirstMerged(s, newStart);
    var left := first < |s| && s[first].start < newStart;
    var a := if left then s[first].start else newStart;
    var b := if left then Max(newEnd, s[first].end) else newEnd;
    var last := UpperBound(s, b + 1);
    var c := if last > 0 && s[last - 1].end > b then s[last - 1].end else b;
    Splice(s, first, last, Sector(a, c))
  }

  /** The end of [a, b) once joined with the sector that starts before `a` and reaches it. */
  function MergedEnd(s: seq<Sector>, a: int, b: int): int {
    if s == [] then b
    else if s[0].start < a <= s[0].end then Max(s[0].end, MergedEnd(s[1..], a, b))
    else MergedEnd(s[1..], a, b)
  }

  /** MergedEnd is the largest of `b` and the ends of the sectors that reach `a` from the left. */
  lemma {:induction false} MergedEndIsMax(s: seq<Sector>, a: int, b: int)
    ensures MergedEnd(s, a, b) >= b
    ensures forall i :: 0 <= i < |s| && s[i].start < a <= s[i].end ==> s[i].end <= MergedEnd(s, a, b)
    ensures MergedEnd(s, a, b) == b
            || exists i :: 0 <= i < |s| && s[i].start < a <= s[i].end && s[i].end == MergedEnd(s, a, b)
  {
    if s != [] {
      MergedEndIsMax(s[1..], a, b);
      assert forall i :: 1 <= i < |s| ==> s[i] == s[1..][i - 1];
    }
  }

  /** The byte just past the merged range is claimed without having been written. */
  ghost predicate ClaimsGap(s: seq<Sector>, a: int, b: int) {
    HasStart(s, MergedEnd(s, a, b) + 1)
  }

  lemma FirstMergedSplits(s: seq<Sector>, a: int)
    requires Ordered(s)
    ensures forall i :: 0 <= i < FirstMerged(s, a) ==> s[i].end < a
    ensures forall i :: FirstMerged(s, a) <= i < |s| ==> s[i].end >= a
    ensures forall i :: FirstMerged(s, a) < i < |s| ==> s[i].start >= a
  {
    var k := LowerBound(s, a);
    LowerBoundSplits(s, a);
    forall i | 0 <= i < |s|
      ensures i < FirstMerged(s, a) ==> s[i].end < a
      ensures FirstMerged(s, a) <= i ==> s[i].end >= a
      ensures FirstMerged(s, a) < i ==> s[i].start >= a
    {
      if i + 1 < k { assert s[k - 1].start < a; }
      if i > k { assert s[k].start >= a; }
    }
  }

  lemma MergedEndAtFirst(s: seq<Sector>, a: int, b: int)
    requires Ordered(s) && a <= b
    ensures var first := FirstMerged(s, a);
            MergedEnd(s, a, b) == if first < |s| && s[first].start < a then Max(b, s[first].end) else b
  {
    FirstMergedSplits(s, a);
    MergedEndIsMax(s, a, b);
  }

  lemma LastMergedSplits(s: seq<Sector>, x: int)
    requires Ordered(s)
    ensures forall i :: 0 <= i < UpperBound(s, x) ==> s[i].start <= x
    ensures forall i :: UpperBound(s, x) <= i < |s| ==> s[i].start > x
  {
    var k := UpperBound(s, x);
    UpperBoundSplits(s, x);
    forall i | k < i < |s| ensures s[i].start > x { assert s[k].start > x; }
  }

  lemma InsertUnfold(s: seq<Sector>, a: int, b: int) returns (first: nat, last: nat, lo: int, hi: int)
    requires Ordered(s) && a <= b
    ensures first == FirstMerged(s, a) && last == UpperBound(s, MergedEnd(s, a, b) + 1)
    ensures first <= |s| && last <= |s| && Insert(s, a, b) == Splice(s, first, last, Sector(lo, hi))
    ensures lo == if first < |s| && s[first].start < a then s[first].start else a
    ensures var m := MergedEnd(s, a, b);
            hi == if last > 0 && s[last - 1].end > m then s[last - 1].end else m
  {
    MergedEndAtFirst(s, a, b);
    var m := MergedEnd(s, a, b);
    first := FirstMerged(s, a);
    last := UpperBound(s, m + 1);
    lo := if first < |s| && s[first].start < a then s[first].start else a;
    hi := if last > 0 && s[last - 1].end > m then s[last - 1].end else m;
  }

  /** insertSector replaces one run of sectors, those that meet the range or start one past it. */
  lemma InsertShape(s: seq<Sector>, a: int, b: int) returns (first: nat, last: nat, lo: int, hi: int)
    requires Ordered(s) && a <= b
    ensures first <= last <= |s|
    ensures first <= |s| && last <= |s| && Insert(s, a, b) == Splice(s, first, last, Sector(lo, hi))
    ensures forall i :: 0 <= i < first ==> s[i].end < a
    ensures forall i :: last <= i < |s| ==> s[i].start > MergedEnd(s, a, b) + 1
    ensures forall i :: first <= i < last ==> s[i].end >= a && s[i].start <= MergedEnd(s, a, b) + 1
    ensures lo == if first < last then Min(a, s[first].start) else a
    ensures hi == if first < last then Max(MergedEnd(s, a, b), s[last - 1].end) else MergedEnd(s, a, b)
    ensures first == last ==> MergedEnd(s, a, b) == b
  {
    first, last, lo, hi := InsertUnfold(s, a, b);
    MergedRun(s, a, b, first, last);
  }

  /** The run that insertSector replaces, and how its ends relate to the new range. */
  lemma MergedRun(s: seq<Sector>, a: int, b: int, first: nat, last: nat)
    requires Ordered(s) && a <= b
    requires first == FirstMerged(s, a) && last == UpperBound(s, MergedEnd(s, a, b) + 1)
    ensures first <= last <= |s|
    ensures forall i :: 0 <= i < first ==> s[i].end < a
    ensures forall i :: last <= i < |s| ==> s[i].start > MergedEnd(s, a, b) + 1
    ensures forall i :: first <= i < last ==> s[i].end >= a && s[i].start <= MergedEnd(s, a, b) + 1
    ensures first < |s| && s[first].start < a ==> first < last
    ensures first == last ==> MergedEnd(s, a, b) == b && (last > 0 ==> s[last - 1].end < a)
  {
    FirstMergedSplits(s, a);
    MergedEndAtFirst(s, a, b);
    MergedEndIsMax(s, a, b);
    LastMergedSplits(s, MergedEnd(s, a, b) + 1);
    UpperBoundAtLeast(s, MergedEnd(s, a, b) + 1, first);
  }

  /** insertSector keeps the set ordered, with no two sectors touching. */
  lemma InsertOrdered(s: seq<Sector>, a: int, b: int)
    requires Ordered(s) && a <= b
    ensures Ordered(Insert(s, a, b))
    ensures NonEmpty(s) && a < b ==> NonEmpty(Insert(s, a, b))
  {
    var first, last, lo, hi := InsertShape(s, a, b);
    MergedEndIsMax(s, a, b);
    SpliceOrdered(s, first, last, lo, hi);
  }

  /** Where the elements of a splice come from. */
  lemma SpliceElements(s: seq<Sector>, first: nat, last: nat, e: Sector)
    requires first <= last <= |s|
    ensures var r := Splice(s, first, last, e);
            && |r| == first + 1 + (|s| - last)
            && r[..first] == s[..first] && r[first] == e && r[first + 1..] == s[last..]
            && (forall i :: 0 <= i < first ==> r[i] == s[i])
            && (forall i :: first < i < |r| ==> r[i] == s[last + (i - first - 1)])
  {
  }

  lemma SpliceOrdered(s: seq<Sector>, first: nat, last: nat, lo: int, hi: int)
    requires Ordered(s) && first <= last <= |s| && lo <= hi
    requires forall i :: 0 <= i < first ==> s[i].end < lo
    requires forall i :: last <= i < |s| ==> s[i].start > hi
    ensures Ordered(Splice(s, first, last, Sector(lo, hi)))
    ensures NonEmpty(s) && lo < hi ==> NonEmpty(Splice(s, first, last, Sector(lo, hi)))
  {
    SpliceElements(s, first, last, Sector(lo, hi));
    var r := Splice(s, first, last, Sector(lo, hi));
    forall i, j | 0 <= i < j < |r| ensures r[i].end < r[j].start {
      if i < first && first < j { assert s[i].end < s[last + (j - first - 1)].start; }
    }
  }

  lemma SpliceCovers(s: seq<Sector>, first: nat, last: nat, lo: int, hi: int, x: int)
    requires first <= last <= |s|
    ensures Covers(Splice(s, first, last, Sector(lo, hi)), x)
            <==> Covers(s[..first], x) || lo <= x < hi || Covers(s[last..], x)
  {
    SpliceElements(s, first, last, Sector(lo, hi));
    var r := Splice(s, first, last, Sector(lo, hi));
    SplitCovers(r, first, first + 1, x);
    assert r[first..first + 1] == [Sector(lo, hi)];
    assert Covers([Sector(lo, hi)], x) <==> lo <= x < hi by {
      assert [Sector(lo, hi)][0] == Sector(lo, hi);
    }
  }

  lemma SplitCovers(s: seq<Sector>, first: nat, last: nat, x: int)
    requires first <= last <= |s|
    ensures Covers(s, x) <==> Covers(s[..first], x) || Covers(s[first..last], x) || Covers(s[last..], x)
  {
    assert forall i :: 0 <= i < first ==> s[i] == s[..first][i];
    assert forall i :: first <= i < last ==> s[i] == s[first..last][i - first];
    assert forall i :: last <= i < |s| ==> s[i] == s[last..][i - last];
    assert forall i :: 0 <= i < last - first ==> s[first..last][i] == s[first + i];
    assert forall i :: 0 <= i < |s| - last ==> s[last..][i] == s[last + i];
  }

  /**
   The bytes covered after insertSector are exactly the old ones, the new range, and the one
   byte at the merged end when some sector starts one past it.
   */
  lemma InsertCovers(s: seq<Sector>, a: int, b: int, x: int)
    requires Ordered(s) && a <= b
    ensures Covers(Insert(s, a, b), x)
            <==> Covers(s, x) || a <= x < b || (x == MergedEnd(s, a, b) && ClaimsGap(s, a, b))
  {
    hide Insert;
    var first, last, lo, hi := InsertShape(s, a, b);
    SpliceCovers(s, first, last, lo, hi, x);
    SplitCovers(s, first, last, x);
    MergedEndIsMax(s, a, b);
    if first < last {
      MergedRunCovers(s, first, last, a, b, x);
    } else {
      assert !Covers(s[first..last], x);
      assert !HasStart(s, b + 1);
    }
  }

  /** The bytes between the ends of the merged run: what it covered, [a, b), and the gap byte. */
  lemma MergedRunCovers(s: seq<Sector>, first: nat, last: nat, a: int, b: int, x: int)
    requires Ordered(s) && a <= b && first < last <= |s|
    requires forall i :: 0 <= i < first ==> s[i].end < a
    requires forall i :: last <= i < |s| ==> s[i].start > MergedEnd(s, a, b) + 1
    requires forall i :: first <= i < last ==> s[i].end >= a && s[i].start <= MergedEnd(s, a, b) + 1
    ensures Min(a, s[first].start) <= x < Max(MergedEnd(s, a, b), s[last - 1].end)
            <==> Covers(s[first..last], x) || a <= x < b || (x == MergedEnd(s, a, b) && ClaimsGap(s, a, b))
  {
    hide MergedEnd;
    MergedEndIsMax(s, a, b);
    var m := MergedEnd(s, a, b);
    var run := s[first..last];
    assert run[0] == s[first] && run[|run| - 1] == s[last - 1];
    if Min(a, s[first].start) <= x < a {
      assert Covers(run, x);
    }
    if b <= x < m {
      var i :| 0 <= i < |s| && s[i].start < a <= s[i].end && s[i].end == m;
      assert run[i - first].start <= x < run[i - first].end;
    }
    if m <= x < s[last - 1].end {
      if s[last - 1].start == m + 1 && x == m {
        assert ClaimsGap(s, a, b);
      } else {
        assert Covers(run, x);
      }
    }
    if x == m && ClaimsGap(s, a, b) {
      var i :| 0 <= i < |s| && s[i].start == m + 1;
      assert i == last - 1;
    }
  }

  /** Everything covered before, and the whole new range, is covered after. */
  lemma InsertKeeps(s: seq<Sector>, a: int, b: int)
    requires Ordered(s) && a <= b
    ensures AtLeast(s, Insert(s, a, b), a, b)
  {
    var r := Insert(s, a, b);
    forall x | Covers(s, x) || a <= x < b ensures Covers(r, x) {
      InsertCovers(s, a, b, x);
    }
  }

  ghost predicate AtLeast(s: seq<Sector>, r: seq<Sector>, a: int, b: int) {
    forall x :: Covers(s, x) || a <= x < b ==> Covers(r, x)
  }

  /** The union is exact if and only if no sector starts one past the merged end. */
  lemma InsertExactIff(s: seq<Sector>, a: int, b: int)
    requires Ordered(s) && a <= b
    ensures (forall x :: Covers(Insert(s, a, b), x) <==> Covers(s, x) || a <= x < b)
            <==> !ClaimsGap(s, a, b)
  {
    hide Insert;
    forall x ensures Covers(Insert(s, a, b), x)
                     <==> Covers(s, x) || a <= x < b || (x == MergedEnd(s, a, b) && ClaimsGap(s, a, b)) {
      InsertCovers(s, a, b, x);
    }
    if ClaimsGap(s, a, b) {
      MergedEndIsMax(s, a, b);
      var m := MergedEnd(s, a, b);
      var i :| 0 <= i < |s| && s[i].start == m + 1;
      assert Covers(Insert(s, a, b), m) && !(a <= m < b);
      assert !Covers(s, m);
    }
  }

  /** The same two ranges inserted in the two orders cover different bytes. */
  lemma InsertOrderMatters()
    ensures !Covers(Insert(Insert([], 0, 1), 2, 3), 1)
    ensures Covers(Insert(Insert([], 2, 3), 0, 1), 1)
  {
    InsertIntoEmpty(0, 1);
    InsertIntoEmpty(2, 3);
    InsertIntoOne(Sector(0, 1), 2, 3, 1);
    InsertIntoOne(Sector(2, 3), 0, 1, 1);
  }

  lemma InsertIntoOne(e: Sector, a: int, b: int, x: int)
    requires e.start <= e.end && a <= b
    ensures var m := if e.start < a <= e.end then Max(b, e.end) else b;
            Covers(Insert([e], a, b), x) <==> e.start <= x < e.end || a <= x < b || (x == m && e.start == m + 1)
  {
    hide Insert;
    var s := [e];
    InsertCovers(s, a, b, x);
    assert s[1..] == [] && s[0] == e;
    assert MergedEnd(s, a, b) == if e.start < a <= e.end then Max(e.end, b) else b;
    assert Covers(s, x) <==> e.start <= x < e.end;
    assert HasStart(s, MergedEnd(s, a, b) + 1) <==> e.start == MergedEnd(s, a, b) + 1;
  }

  lemma InsertIntoEmpty(a: int, b: int)
    ensures Insert([], a, b) == [Sector(a, b)]
  {
  }

  // ---------------------------------------------------------------------------
  // The stored size
  // ---------------------------------------------------------------------------

  function FileSize(s: seq<Sector>): int {
    if s == [] then 0 else s[|s| - 1].end
  }

  /** Sectors of a file: ordered, holding at least a byte each, at offsets from zero. */
  ghost predicate Stored(s: seq<Sector>) {
    Ordered(s) && NonEmpty(s) && forall i :: 0 <= i < |s| ==> s[i].start >= 0
  }

  lemma InsertStored(s: seq<Sector>, a: int, b: int)
    requires Stored(s) && 0 <= a < b
    ensures Stored(Insert(s, a, b))
  {
    InsertOrdered(s, a, b);
    var first, last, lo, hi := InsertShape(s, a, b);
    SpliceElements(s, first, last, Sector(lo, hi));
  }

  /** The stored size only grows, to the end of the inserted range. */
  lemma InsertFileSize(s: seq<Sector>, a: int, b: int)
    requires Ordered(s) && a <= b && 0 <= b
    ensures FileSize(Insert(s, a, b)) == if s == [] then b else Max(FileSize(s), b)
  {
    var first, last, lo, hi := InsertShape(s, a, b);
    SpliceFileSize(s, first, last, Sector(lo, hi));
    MergedEndBelow(s, a, b);
    EndsIncrease(s);
    if last < |s| { assert b < s[last].start <= s[last].end; }
  }

  lemma SpliceFileSize(s: seq<Sector>, first: nat, last: nat, e: Sector)
    requires first <= last <= |s|
    ensures FileSize(Splice(s, first, last, e)) == if last < |s| then FileSize(s) else e.end
  {
    SpliceElements(s, first, last, e);
  }

  lemma MergedEndBelow(s: seq<Sector>, a: int, b: int)
    requires Ordered(s)
    ensures b <= MergedEnd(s, a, b) && (s != [] ==> MergedEnd(s, a, b) <= Max(FileSize(s), b))
    ensures s == [] ==> MergedEnd(s, a, b) == b
  {
    MergedEndIsMax(s, a, b);
    EndsIncrease(s);
  }

  lemma EndsIncrease(s: seq<Sector>)
    requires Ordered(s)
    ensures forall i :: 0 <= i < |s| ==> s[i].end <= FileSize(s)
  {
    forall i | 0 <= i < |s| - 1 ensures s[i].end <= FileSize(s) {
      assert s[i].end < s[|s| - 1].start;
    }
  }

  /** A file without holes has at most one sector, from zero to its size. */
  function GapFree(n: nat): seq<Sector> {
    if n == 0 then [] else [Sector(0, n)]
  }

  lemma GapFreeCovers(n: nat)
    ensures Stored(GapFree(n)) && FileSize(GapFree(n)) == n
    ensures forall x :: Covers(GapFree(n), x) <==> 0 <= x < n
  {
    if n > 0 {
      var s := GapFree(n);
      assert s[0].start == 0 && s[0].end == n;
    }
  }

  lemma InsertGapFree(n: nat, a: nat, b: nat)
    requires a <= n && a < b
    ensures Insert(GapFree(n), a, b) == GapFree(Max(n, b))
  {
    var s := GapFree(n);
    if n == 0 {
      InsertIntoEmpty(a, b);
    } else {
      var first, last, lo, hi := InsertShape(s, a, b);
      MergedEndIsMax(s, a, b);
      assert s[0] == Sector(0, n) && first == 0 && last == 1 && lo == 0 && hi == Max(n, b);
    }
  }

  // ---------------------------------------------------------------------------
  // Queries
  // ---------------------------------------------------------------------------

  const SECTOR_NOT_FOUND := -1

  function GetSectorEnd(s: seq<Sector>, offset: int): int {
    if s == [] then SECTOR_NOT_FOUND
    else
      var k := UpperBound(s, offset);
      if k > 0 && offset <= s[k - 1].end then s[k - 1].end else SECTOR_NOT_FOUND
  }

  function SeekData(s: seq<Sector>, offset: int): int {
    if s == [] then (if offset == 0 then 0 else -1)
    else
      var k := UpperBound(s, offset);
      if k == 0 then s[0].start
      else if offset <= s[k - 1].end then offset
      else if k == |s| then -1
      else s[k].start
  }

  function SeekHole(s: seq<Sector>, offset: int): int {
    if s == [] then (if offset == 0 then 0 else -1)
    else
      var k := UpperBound(s, offset);
      if k == 0 then offset
      else if offset <= s[k - 1].end then s[k - 1].end
      else if k == |s| then -1
      else offset
  }

  /** A run of covered bytes ends at `x`. */
  ghost predicate EndsRun(s: seq<Sector>, x: int) {
    Covers(s, x - 1) && !Covers(s, x)
  }

  /** What the binary search finds: the bytes around `offset` in terms of one sector. */
  lemma AroundOffset(s: seq<Sector>, offset: int)
    requires Stored(s)
    ensures var k := UpperBound(s, offset);
            && (k > 0 ==> s[k - 1].start <= offset)
            && (forall i :: 0 <= i < k - 1 ==> s[i].end < offset)
            && (forall i :: k <= i < |s| ==> s[i].start > offset)
            && (Covers(s, offset) <==> k > 0 && offset < s[k - 1].end)
            && (EndsRun(s, offset) <==> k > 0 && offset == s[k - 1].end)
  {
    var k := UpperBound(s, offset);
    LastMergedSplits(s, offset);
    CoversSplit(s, offset, k);
  }

  lemma CoversSplit(s: seq<Sector>, x: int, k: nat)
    requires Stored(s) && k <= |s|
    requires forall i :: 0 <= i < k ==> s[i].start <= x
    requires forall i :: k <= i < |s| ==> s[i].start > x
    ensures forall i :: 0 <= i < k - 1 ==> s[i].end < x
    ensures Covers(s, x) <==> k > 0 && x < s[k - 1].end
    ensures EndsRun(s, x) <==> k > 0 && x == s[k - 1].end
  {
    forall i | 0 <= i < k - 1 ensures s[i].end < x { assert s[i].end < s[k - 1].start; }
    if k > 0 && x == s[k - 1].end {
      assert s[k - 1].start <= x - 1 < s[k - 1].end;
    }
    if Covers(s, x - 1) {
      var i :| 0 <= i < |s| && s[i].start <= x - 1 < s[i].end;
      assert i == k - 1;
    }
  }

  /** The sector that ends at `e` covers every byte from its start, and not `e` itself. */
  lemma SectorIsRun(s: seq<Sector>, i: nat)
    requires Stored(s) && i < |s|
    ensures forall x :: s[i].start <= x < s[i].end ==> Covers(s, x)
    ensures !Covers(s, s[i].end)
    ensures i + 1 < |s| ==> forall x :: s[i].end <= x < s[i + 1].start ==> !Covers(s, x)
    ensures s[i].end <= FileSize(s)
  {
    forall x | s[i].end <= x && (i + 1 < |s| ==> x < s[i + 1].start) && x <= s[i].end ensures !Covers(s, x) {}
  }

  lemma GapFreeSectorEnd(n: nat, offset: nat)
    ensures GetSectorEnd(GapFree(n), offset) == if 0 < n && offset <= n then n else SECTOR_NOT_FOUND
  {
    var s := GapFree(n);
    if n > 0 { assert UpperBound(s, offset) == 1; }
  }

  lemma SectorEndCovers(s: seq<Sector>, offset: nat)
    requires Ordered(s)
    ensures var r := GetSectorEnd(s, offset);
            r != SECTOR_NOT_FOUND ==> offset <= r <= FileSize(s) && forall x :: offset <= x < r ==> Covers(s, x)
  {
    var k := UpperBound(s, offset);
    UpperBoundSplits(s, offset);
    EndsIncrease(s);
    if k > 0 && offset <= s[k - 1].end {
      forall x | offset <= x < s[k - 1].end ensures Covers(s, x) {
        assert s[k - 1].start <= x < s[k - 1].end;
      }
    }
  }

  /** Of `count` bytes from `at` on, those before the first that is in no sector. */
  ghost predicate LongestRun(sectors: seq<Sector>, at: nat, count: nat, n: nat) {
    && n <= count
    && (forall x :: at <= x < at + n ==> Covers(sectors, x))
    && (n == count || !Covers(sectors, at + n))
  }

  /** A byte of the range is in no sector; for an empty range, no sector holds its offset or ends there. */
  ghost predicate Lacks(s: seq<Sector>, at: nat, count: nat) {
    if count == 0 then GetSectorEnd(s, at) == SECTOR_NOT_FOUND
    else exists x :: at <= x < at + count && !Covers(s, x)
  }

  /** A range ends past the sector at its start, or starts in a hole, iff the sectors lack some of it. */
  lemma LacksIff(s: seq<Sector>, at: nat, count: nat)
    requires Ordered(s)
    ensures Lacks(s, at, count) <==> at + count > GetSectorEnd(s, at)
  {
    SectorEndCovers(s, at);
    if count > 0 { CoveredRunEnd(s, at, at + count); }
  }

  /** Covered bytes in a row lie in one sector. */
  lemma CoveredRunEnd(s: seq<Sector>, a: nat, b: nat)
    requires Ordered(s) && a < b
    ensures b <= GetSectorEnd(s, a) <==> forall x :: a <= x < b ==> Covers(s, x)
  {
    SectorEndCovers(s, a);
    if forall x :: a <= x < b ==> Covers(s, x) {
      assert Covers(s, a);
      var i :| 0 <= i < |s| && s[i].start <= a < s[i].end;
      EndAtSector(s, i, a);
      assert s[i].end < b ==> Covers(s, s[i].end);
    }
  }

  lemma EndAtSector(s: seq<Sector>, i: nat, offset: int)
    requires Ordered(s) && i < |s| && s[i].start <= offset <= s[i].end
    ensures GetSectorEnd(s, offset) == s[i].end
  {
    var k := UpperBound(s, offset);
    UpperBoundSplits(s, offset);
  }

  lemma NothingInEmpty(offset: int)
    ensures GetSectorEnd([], offset) == SECTOR_NOT_FOUND
  {
  }

  lemma NothingBefore(e: Sector, offset: int)
    requires offset < e.start
    ensures GetSectorEnd([e], offset) == SECTOR_NOT_FOUND
  {
  }

  /**
   getSectorEnd is the end of the maximal covered run at `offset`, the offset itself at a run's
   end, and the not-found value exactly in a hole.
   */
  lemma GetSectorEndIsRunEnd(s: seq<Sector>, offset: int)
    requires Stored(s)
    ensures var r := GetSectorEnd(s, offset);
            && (r == SECTOR_NOT_FOUND <==> !Covers(s, offset) && !EndsRun(s, offset))
            && (r != SECTOR_NOT_FOUND ==>
                  && offset <= r <= FileSize(s)
                  && (forall x :: offset <= x < r ==> Covers(s, x))
                  && !Covers(s, r)
                  && (r == offset <==> EndsRun(s, offset)))
  {
    AroundOffset(s, offset);
    var k := UpperBound(s, offset);
    if k > 0 { SectorIsRun(s, k - 1); }
  }

  /** seekHole is the least uncovered offset from `offset`, up to the file size. */
  lemma SeekHoleIsLeastHole(s: seq<Sector>, offset: nat)
    requires Stored(s)
    ensures var r := SeekHole(s, offset);
            && (r == -1 <==> offset > FileSize(s))
            && (r != -1 ==>
                  && offset <= r <= FileSize(s)
                  && !Covers(s, r)
                  && forall x :: offset <= x < r ==> Covers(s, x))
  {
    AroundOffset(s, offset);
    var k := UpperBound(s, offset);
    if k > 0 { SectorIsRun(s, k - 1); }
    if k < |s| { SectorIsRun(s, k); }
  }

  ghost predicate IsLeastData(s: seq<Sector>, offset: int, r: int) {
    if r == -1 then forall x :: x >= offset ==> !Covers(s, x)
    else r >= offset && Covers(s, r) && forall x :: offset <= x < r ==> !Covers(s, x)
  }

  /** seekData is the least covered offset except at a run's end and at offset 0 of an empty file. */
  lemma SeekDataIsLeastDataIff(s: seq<Sector>, offset: nat)
    requires Stored(s)
    ensures IsLeastData(s, offset, SeekData(s, offset)) <==> !(EndsRun(s, offset) || (s == [] && offset == 0))
    ensures EndsRun(s, offset) ==> SeekData(s, offset) == offset
  {
    AroundOffset(s, offset);
    var k := UpperBound(s, offset);
    if k > 0 { SectorIsRun(s, k - 1); }
    if k < |s| {
      SectorIsRun(s, k);
      assert s[k].start <= s[k].start < s[k].end;
    }
    if k == 0 && s != [] {
      forall x | offset <= x < s[0].start ensures !Covers(s, x) {}
    }
    if k == |s| > 0 && offset > s[k - 1].end {
      forall x | x >= offset ensures !Covers(s, x) {}
    }
  }

  /** At the end of its one byte, a file of one byte answers the offset itself, where there is no data. */
  lemma SeekDataAtEnd()
    ensures SeekData([Sector(0, 1)], 1) == 1 && !Covers([Sector(0, 1)], 1)
    ensures !IsLeastData([Sector(0, 1)], 1, SeekData([Sector(0, 1)], 1))
  {
    var s := [Sector(0, 1)];
    assert s[0] == Sector(0, 1);
    assert UpperBound(s, 1) == 1;
  }

  // ---------------------------------------------------------------------------
  // Histories of insertions
  // ---------------------------------------------------------------------------

  function InsertAll(h: seq<Sector>): seq<Sector> {
    if h == [] then []
    else Insert(InsertAll(h[..|h| - 1]), h[|h| - 1].start, h[|h| - 1].end)
  }

  ghost predicate HasEnd(h: seq<Sector>, x: int) { exists i :: 0 <= i < |h| && h[i].end == x }

  ghost predicate AllRanges(h: seq<Sector>) {
    forall i :: 0 <= i < |h| ==> h[i].start <= h[i].end
  }

  /** Sector bounds are only ever bounds of inserted ranges. */
  lemma InsertBounds(s: seq<Sector>, a: int, b: int, x: int)
    requires Ordered(s) && a <= b
    ensures HasStart(Insert(s, a, b), x) ==> x == a || HasStart(s, x)
    ensures HasEnd(Insert(s, a, b), x) ==> x == b || HasEnd(s, x)
  {
    var first, last, lo, hi := InsertShape(s, a, b);
    MergedEndIsMax(s, a, b);
    assert lo == a || HasStart(s, lo);
    assert hi == b || HasEnd(s, hi);
    SpliceBounds(s, first, last, Sector(lo, hi), x);
  }

  lemma SpliceBounds(s: seq<Sector>, first: nat, last: nat, e: Sector, x: int)
    requires first <= last <= |s|
    ensures HasStart(Splice(s, first, last, e), x) ==> x == e.start || HasStart(s, x)
    ensures HasEnd(Splice(s, first, last, e), x) ==> x == e.end || HasEnd(s, x)
  {
    SpliceElements(s, first, last, e);
  }

  lemma {:induction false} HistoryBounds(h: seq<Sector>)
    requires AllRanges(h)
    ensures Ordered(InsertAll(h))
    ensures forall x :: HasStart(InsertAll(h), x) ==> HasStart(h, x)
    ensures forall x :: HasEnd(InsertAll(h), x) ==> HasEnd(h, x)
  {
    if h != [] {
      var g, e := h[..|h| - 1], h[|h| - 1];
      HistoryBounds(g);
      InsertOrdered(InsertAll(g), e.start, e.end);
      forall x ensures HasStart(InsertAll(h), x) ==> HasStart(h, x)
               ensures HasEnd(InsertAll(h), x) ==> HasEnd(h, x) {
        InsertBounds(InsertAll(g), e.start, e.end, x);
        LastElement(h, x);
      }
    }
  }

  /** One insertion claims no byte but the range and a one-byte hole before another sector. */
  lemma InsertClaims(s: seq<Sector>, a: int, b: int, x: int)
    requires Ordered(s) && a <= b
    ensures Covers(s, x) || a <= x < b ==> Covers(Insert(s, a, b), x)
    ensures Covers(Insert(s, a, b), x) ==>
              Covers(s, x) || a <= x < b || ((x == b || HasEnd(s, x)) && HasStart(s, x + 1))
  {
    InsertCovers(s, a, b, x);
    MergedEndIsMax(s, a, b);
  }

  /**
   After any history of insertions the sectors are ordered and apart, every inserted byte is
   covered, and any other covered byte is a one-byte hole between two inserted ranges.
   */
  lemma {:induction false} HistoryCovers(h: seq<Sector>, x: int)
    requires AllRanges(h)
    ensures Ordered(InsertAll(h))
    ensures Covers(h, x) ==> Covers(InsertAll(h), x)
    ensures Covers(InsertAll(h), x) ==> Covers(h, x) || (HasEnd(h, x) && HasStart(h, x + 1))
  {
    HistoryBounds(h);
    if h != [] {
      var g, e := h[..|h| - 1], h[|h| - 1];
      HistoryBounds(g);
      HistoryCovers(g, x);
      InsertClaims(InsertAll(g), e.start, e.end, x);
      LastElement(h, x);
      LastElement(h, x + 1);
    }
  }

  lemma LastElement(h: seq<Sector>, x: int)
    requires h != []
    ensures var g, e := h[..|h| - 1], h[|h| - 1];
            && (HasStart(h, x) <==> HasStart(g, x) || x == e.start)
            && (HasEnd(h, x) <==> HasEnd(g, x) || x == e.end)
            && (Covers(h, x) <==> Covers(g, x) || e.start <= x < e.end)
  {
    var g, e := h[..|h| - 1], h[|h| - 1];
    assert forall i :: 0 <= i < |g| ==> g[i] == h[i];
  }

  /** Whether `x` is a byte of a sector or the end of one. */
  ghost predicate Touches(s: seq<Sector>, x: int) {
    exists i :: 0 <= i < |s| && s[i].start <= x <= s[i].end
  }

  /** What is not covered and touched is where a sector ends, or where one starts. */
  lemma TouchesOrCovers(s: seq<Sector>, x: int)
    requires AllRanges(s)
    ensures Covers(s, x) ==> Touches(s, x) && Touches(s, x + 1)
    ensures !Covers(s, x) ==> (Touches(s, x) <==> HasEnd(s, x)) && (Touches(s, x + 1) <==> HasStart(s, x + 1))
  {
  }

  lemma SpliceTouches(s: seq<Sector>, first: nat, last: nat, lo: int, hi: int, x: int)
    requires first <= last <= |s|
    requires forall i :: first <= i < last ==> lo <= s[i].start && s[i].end <= hi
    ensures Touches(Splice(s, first, last, Sector(lo, hi)), x) <==> Touches(s, x) || lo <= x <= hi
  {
    var r := Splice(s, first, last, Sector(lo, hi));
    SpliceElements(s, first, last, Sector(lo, hi));
    if Touches(s, x) {
      var i :| 0 <= i < |s| && s[i].start <= x <= s[i].end;
      if i < first {
        assert r[i] == s[i];
      } else if i < last {
        assert r[first] == Sector(lo, hi);
      } else {
        assert r[first + 1 + (i - last)] == s[i];
      }
    }
    if lo <= x <= hi { assert r[first] == Sector(lo, hi); }
  }

  /** insertSector touches exactly what was touched and the new range: only what it covers may grow by more. */
  lemma InsertTouches(s: seq<Sector>, a: int, b: int, x: int)
    requires Ordered(s) && a <= b
    ensures Touches(Insert(s, a, b), x) <==> Touches(s, x) || a <= x <= b
  {
    hide Insert;
    var first, last, lo, hi := InsertShape(s, a, b);
    MergedEndIsMax(s, a, b);
    MergedInside(s, first, last);
    SpliceTouches(s, first, last, lo, hi, x);
    var m := MergedEnd(s, a, b);
    if lo <= x < a {
      assert s[first].start <= x <= s[first].end;
    }
    if b < x <= m {
      var i :| 0 <= i < |s| && s[i].start < a <= s[i].end && s[i].end == m;
      assert s[i].start <= x <= s[i].end;
    }
    if m < x <= hi {
      assert s[last - 1].start <= x <= s[last - 1].end;
    }
  }

  /** The merged run starts and ends with its first and last sectors. */
  lemma MergedInside(s: seq<Sector>, first: nat, last: nat)
    requires Ordered(s) && first <= last <= |s|
    ensures forall i :: first <= i < last ==> s[first].start <= s[i].start && s[i].end <= s[last - 1].end
  {
  }

  /** After any history, exactly the ranges inserted are touched. */
  lemma {:induction false} HistoryTouches(h: seq<Sector>, x: int)
    requires AllRanges(h)
    ensures Touches(InsertAll(h), x) <==> Touches(h, x)
  {
    if h != [] {
      hide Insert;
      var g, e := h[..|h| - 1], h[|h| - 1];
      HistoryBounds(g);
      HistoryTouches(g, x);
      InsertTouches(InsertAll(g), e.start, e.end, x);
      assert forall i :: 0 <= i < |g| ==> g[i] == h[i];
    }
  }

  /** Ordered sets that cover and touch the same bytes are the same set. */
  lemma {:induction false} Canonical(s: seq<Sector>, t: seq<Sector>)
    requires Ordered(s) && Ordered(t)
    requires forall x :: (Covers(s, x) <==> Covers(t, x)) && (Touches(s, x) <==> Touches(t, x))
    ensures s == t
  {
    assert s != [] ==> Touches(s, s[0].start);
    assert t != [] ==> Touches(t, t[0].start);
    if s != [] && t != [] {
      SameFirst(s, t);
      forall x ensures Covers(s[1..], x) <==> Covers(t[1..], x)
               ensures Touches(s[1..], x) <==> Touches(t[1..], x) {
        TailCovers(s, x); TailCovers(t, x);
      }
      Canonical(s[1..], t[1..]);
      assert s == [s[0]] + s[1..] && t == [t[0]] + t[1..];
    }
  }

  lemma SameFirst(s: seq<Sector>, t: seq<Sector>)
    requires Ordered(s) && Ordered(t) && s != [] && t != []
    requires forall x :: (Covers(s, x) <==> Covers(t, x)) && (Touches(s, x) <==> Touches(t, x))
    ensures s[0] == t[0]
  {
    FirstSector(s); FirstSector(t);
    assert Touches(s, s[0].start) && Touches(t, t[0].start);
    assert s[0].start == t[0].start;
    assert !Covers(t, s[0].end) && !Covers(s, t[0].end);
  }

  lemma FirstSector(s: seq<Sector>)
    requires Ordered(s) && s != []
    ensures forall x :: s[0].start <= x < s[0].end ==> Covers(s, x)
    ensures forall x :: Touches(s, x) ==> x >= s[0].start
    ensures !Covers(s, s[0].end)
  {
  }

  lemma TailCovers(s: seq<Sector>, x: int)
    requires Ordered(s) && s != []
    ensures Covers(s[1..], x) <==> Covers(s, x) && x > s[0].end
    ensures Touches(s[1..], x) <==> Touches(s, x) && x > s[0].end
  {
    assert forall i :: 0 <= i < |s| - 1 ==> s[1..][i] == s[i + 1];
    assert forall i :: 1 <= i < |s| ==> s[i] == s[1..][i - 1];
  }

  // ---------------------------------------------------------------------------
  // When the order of insertions does not matter
  // ---------------------------------------------------------------------------

  /** A hole of one byte: ranges end before `x` and start after it, and none holds it. */
  ghost predicate GapAt(h: seq<Sector>, x: int) {
    HasEnd(h, x) && HasStart(h, x + 1) && !Covers(h, x)
  }

  ghost predicate SameBytes(g: seq<Sector>, h: seq<Sector>) {
    forall x :: (Covers(g, x) <==> Covers(h, x)) && (Touches(g, x) <==> Touches(h, x))
  }

  /** Without a hole of one byte a history covers exactly what was inserted. */
  lemma HistoryExact(h: seq<Sector>, x: int)
    requires AllRanges(h) && !GapAt(h, x)
    ensures Covers(InsertAll(h), x) <==> Covers(h, x)
  {
    HistoryCovers(h, x);
  }

  /**
   Two histories that write the same bytes, in any order and split, end in the same sector set,
   provided these bytes leave no hole of one byte.
   */
  lemma HistoryOrderIndependent(g: seq<Sector>, h: seq<Sector>)
    requires AllRanges(g) && AllRanges(h) && SameBytes(g, h)
    requires forall x :: !GapAt(h, x)
    ensures InsertAll(g) == InsertAll(h)
  {
    HistoryBounds(g); HistoryBounds(h);
    forall x ensures Covers(InsertAll(g), x) <==> Covers(InsertAll(h), x)
             ensures Touches(InsertAll(g), x) <==> Touches(InsertAll(h), x) {
      TouchesOrCovers(g, x); TouchesOrCovers(h, x);
      assert !GapAt(h, x);
      HistoryExact(g, x); HistoryExact(h, x);
      HistoryTouches(g, x); HistoryTouches(h, x);
    }
    Canonical(InsertAll(g), InsertAll(h));
  }

  /** For ranges that hold a byte at least, the bytes covered say it all. */
  lemma NonEmptySameBytes(g: seq<Sector>, h: seq<Sector>)
    requires NonEmpty(g) && NonEmpty(h) && forall x :: Covers(g, x) <==> Covers(h, x)
    ensures SameBytes(g, h)
  {
    forall x ensures Touches(g, x) <==> Touches(h, x) {
      NonEmptyTouches(g, x); NonEmptyTouches(h, x);
    }
  }

  /** Ranges that hold a byte at least: the bytes they cover decide the sectors. */
  lemma NonEmptyOrderIndependent(g: seq<Sector>, h: seq<Sector>)
    requires NonEmpty(g) && NonEmpty(h) && forall x :: Covers(g, x) <==> Covers(h, x)
    requires forall x :: !GapAt(h, x)
    ensures InsertAll(g) == InsertAll(h)
  {
    NonEmptySameBytes(g, h);
    HistoryOrderIndependent(g, h);
  }

  lemma NonEmptyTouches(h: seq<Sector>, x: int)
    requires NonEmpty(h)
    ensures Touches(h, x) <==> Covers(h, x) || Covers(h, x - 1)
  {
    if Touches(h, x) {
      var i :| 0 <= i < |h| && h[i].start <= x <= h[i].end;
      assert h[i].start <= x < h[i].end || h[i].start <= x - 1 < h[i].end;
    }
  }

  ghost predicate Reorders(g: seq<Sector>, h: seq<Sector>) {
    multiset(g) == multiset(h)
  }

  lemma ReordersSameBytes(g: seq<Sector>, h: seq<Sector>)
    requires Reorders(g, h) && AllRanges(h)
    ensures AllRanges(g) && SameBytes(g, h)
  {
    forall e ensures e in g <==> e in h {
      assert e in g <==> e in multiset(g);
      assert e in h <==> e in multiset(h);
    }
    forall i | 0 <= i < |g| ensures g[i].start <= g[i].end {
      assert g[i] in h;
    }
    MembersSameBytes(g, h);
    MembersSameBytes(h, g);
  }

  lemma MembersSameBytes(g: seq<Sector>, h: seq<Sector>)
    requires forall e :: e in g ==> e in h
    ensures forall x :: (Covers(g, x) ==> Covers(h, x)) && (Touches(g, x) ==> Touches(h, x))
  {
    forall x | Covers(g, x) ensures Covers(h, x) {
      var i :| 0 <= i < |g| && g[i].start <= x < g[i].end;
      assert g[i] in h;
    }
    forall x | Touches(g, x) ensures Touches(h, x) {
      var i :| 0 <= i < |g| && g[i].start <= x <= g[i].end;
      assert g[i] in h;
    }
  }

  /** The ranges that end at or before `x`, in order, and the others. */
  function Low(h: seq<Sector>, x: int): seq<Sector> {
    if h == [] then []
    else Low(h[..|h| - 1], x) + (if h[|h| - 1].end <= x then [h[|h| - 1]] else [])
  }

  function High(h: seq<Sector>, x: int): seq<Sector> {
    if h == [] then []
    else High(h[..|h| - 1], x) + (if h[|h| - 1].end <= x then [] else [h[|h| - 1]])
  }

  lemma {:induction false} LowHighSplit(h: seq<Sector>, x: int)
    ensures multiset(Low(h, x)) + multiset(High(h, x)) == multiset(h)
  {
    if h != [] {
      LowHighSplit(h[..|h| - 1], x);
      assert h == h[..|h| - 1] + [h[|h| - 1]];
    }
  }

  lemma {:induction false} LowHighMembers(h: seq<Sector>, x: int, e: Sector)
    ensures e in Low(h, x) <==> e in h && e.end <= x
    ensures e in High(h, x) <==> e in h && e.end > x
  {
    if h != [] {
      LowHighMembers(h[..|h| - 1], x, e);
      assert h == h[..|h| - 1] + [h[|h| - 1]];
    }
  }

  lemma InsertAllThen(h: seq<Sector>, e: Sector)
    ensures InsertAll(h + [e]) == Insert(InsertAll(h), e.start, e.end)
  {
    assert (h + [e])[..|h|] == h;
  }

  /** The low ranges first: the byte of the gap is never claimed. */
  lemma {:induction false} LowFirstLeavesGap(low: seq<Sector>, high: seq<Sector>, x: int)
    requires AllRanges(low) && AllRanges(high)
    requires forall i :: 0 <= i < |low| ==> low[i].end <= x
    requires forall i :: 0 <= i < |high| ==> high[i].start > x
    ensures !Covers(InsertAll(low + high), x)
    decreases |high|
  {
    hide Insert, InsertAll;
    if high == [] {
      assert low + high == low;
      HistoryCovers(low, x);
    } else {
      var rest, e := high[..|high| - 1], high[|high| - 1];
      assert low + high == low + rest + [e];
      LowFirstLeavesGap(low, rest, x);
      InsertAllThen(low + rest, e);
      HistoryBounds(low + rest);
      HighRangeLeavesGap(InsertAll(low + rest), e.start, e.end, x);
    }
  }

  lemma HighRangeLeavesGap(s: seq<Sector>, a: int, b: int, x: int)
    requires Ordered(s) && x < a <= b && !Covers(s, x)
    ensures !Covers(Insert(s, a, b), x)
  {
    hide Insert;
    InsertCovers(s, a, b, x);
    MergedEndIsMax(s, a, b);
  }

  /** A range that ends where a gap begins claims the byte of the gap. */
  lemma InsertClaimsGap(s: seq<Sector>, a: int, x: int)
    requires Ordered(s) && a <= x && Touches(s, x + 1)
    ensures Covers(Insert(s, a, x), x)
  {
    hide Insert;
    InsertCovers(s, a, x, x);
    MergedEndIsMax(s, a, x);
    if !Covers(s, x) {
      TouchesOrCovers(s, x);
      assert MergedEnd(s, a, x) == x;
    }
  }

  /** The high ranges first: the first low range that ends at the gap claims its byte. */
  lemma {:induction false} HighFirstClaimsGap(high: seq<Sector>, low: seq<Sector>, x: int)
    requires AllRanges(low) && AllRanges(high) && Touches(high, x + 1) && HasEnd(low, x)
    ensures Covers(InsertAll(high + low), x)
    decreases |low|
  {
    hide Insert, InsertAll, Covers;
    var rest, e := low[..|low| - 1], low[|low| - 1];
    assert high + low == high + rest + [e];
    InsertAllThen(high + rest, e);
    HistoryBounds(high + rest);
    LastElement(low, x);
    if HasEnd(rest, x) {
      HighFirstClaimsGap(high, rest, x);
      InsertClaims(InsertAll(high + rest), e.start, e.end, x);
    } else {
      TouchesPrefix(high, rest, x + 1);
      HistoryTouches(high + rest, x + 1);
      InsertClaimsGap(InsertAll(high + rest), e.start, x);
    }
  }

  lemma TouchesPrefix(g: seq<Sector>, h: seq<Sector>, x: int)
    requires Touches(g, x)
    ensures Touches(g + h, x)
  {
    var i :| 0 <= i < |g| && g[i].start <= x <= g[i].end;
    assert (g + h)[i] == g[i];
  }

  /** On either side of a gap there are ranges, and none reaches across it. */
  lemma GapSides(h: seq<Sector>, x: int)
    requires AllRanges(h) && GapAt(h, x)
    ensures var low, high := Low(h, x), High(h, x);
            && AllRanges(low) && AllRanges(high) && HasEnd(low, x) && Touches(high, x + 1)
            && (forall i :: 0 <= i < |low| ==> low[i].end <= x)
            && (forall i :: 0 <= i < |high| ==> high[i].start > x)
  {
    hide Low, High;
    var low, high := Low(h, x), High(h, x);
    forall i | 0 <= i < |low| ensures low[i].start <= low[i].end <= x {
      LowHighMembers(h, x, low[i]);
    }
    forall i | 0 <= i < |high| ensures x < high[i].start <= high[i].end {
      LowHighMembers(h, x, high[i]);
      assert high[i] in h;
    }
    var i :| 0 <= i < |h| && h[i].end == x;
    LowHighMembers(h, x, h[i]);
    var j :| 0 <= j < |h| && h[j].start == x + 1;
    LowHighMembers(h, x, h[j]);
  }

  /** A hole of one byte is claimed in one order and left in another. */
  lemma GapBreaksOrder(h: seq<Sector>, x: int)
    requires AllRanges(h) && GapAt(h, x)
    ensures var g, k := Low(h, x) + High(h, x), High(h, x) + Low(h, x);
            && Reorders(g, h) && Reorders(k, h)
            && !Covers(InsertAll(g), x) && Covers(InsertAll(k), x)
  {
    hide InsertAll, Low, High, Covers, Touches, HasEnd, GapAt;
    LowHighSplit(h, x);
    GapSides(h, x);
    LowFirstLeavesGap(Low(h, x), High(h, x), x);
    HighFirstClaimsGap(High(h, x), Low(h, x), x);
  }

  ghost predicate OrderIndependent(h: seq<Sector>) {
    forall g, k :: Reorders(g, h) && Reorders(k, h) ==> InsertAll(g) == InsertAll(k)
  }

  /** The order of a history does not matter if and only if its ranges leave no hole of one byte. */
  lemma OrderIndependentIff(h: seq<Sector>)
    requires AllRanges(h)
    ensures OrderIndependent(h) <==> forall x :: !GapAt(h, x)
  {
    if forall x :: !GapAt(h, x) {
      forall g, k | Reorders(g, h) && Reorders(k, h) ensures InsertAll(g) == InsertAll(k) {
        ReordersSameBytes(g, h);
        ReordersSameBytes(k, h);
        HistoryOrderIndependent(g, h);
        HistoryOrderIndependent(k, h);
      }
    } else {
      var x :| GapAt(h, x);
      GapBreaksOrder(h, x);
    }
  }
}
