/** The bytes of a buffer by offset, where only some offsets were ever stored. */
module Cells {
  import opened Bytes

  function Put(cells: map<int, Byte>, at: int, d: Data): map<int, Byte>
    decreases |d|
  {
    if d == [] then cells else Put(cells[at := d[0]], at + 1, d[1..])
  }

  ghost predicate Within(cells: map<int, Byte>, at: int, n: nat) {
    forall x :: at <= x < at + n ==> x in cells
  }

  /** A buffer at `at`, where bytes that were never stored are whatever is there. */
  ghost function Buffer(cells: map<int, Byte>, junk: int -> Byte, at: nat, n: nat): Data {
    seq(n, i requires 0 <= i < n => if at + i in cells then cells[at + i] else junk(at + i))
  }

  lemma {:induction false} PutAt(cells: map<int, Byte>, at: int, d: Data, x: int)
    ensures x in Put(cells, at, d) <==> x in cells || at <= x < at + |d|
    ensures at <= x < at + |d| ==> Put(cells, at, d)[x] == d[x - at]
    ensures x in cells && !(at <= x < at + |d|) ==> Put(cells, at, d)[x] == cells[x]
    decreases |d|
  {
    if d != [] { PutAt(cells[at := d[0]], at + 1, d[1..], x); }
  }
}
