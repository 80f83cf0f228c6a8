/**
 What an application sees when no cache is involved: files as byte sequences, descriptors, and
 offsets that duplicated descriptors share (`read()` and `write()` in the System Interfaces
 volume of POSIX.1-2017, IEEE Std 1003.1).
 */
module PlainFiles {
  import opened Bytes

  /** `cell` names the offset a descriptor uses; duplicates share the cell. */
  datatype Plain = Plain(files: map<Path, Data>, path: map<int, Path>, cell: map<int, nat>, offset: map<nat, nat>)

  datatype Op =
    | Open(fd: int, name: Path, newCell: nat)
    | Read(fd: int, count: nat)
    | Write(fd: int, data: Data)
    | Seek(fd: int, position: nat)
    | Dup(fd: int, newFd: int)
    | Close(fd: int)

  /** Every open descriptor has a file and an offset, and a shared offset means the same file. */
  ghost predicate Wired(p: Plain) {
    && p.path.Keys == p.cell.Keys
    && (forall fd :: fd in p.path ==> p.path[fd] in p.files)
    && (forall fd :: fd in p.cell ==> p.cell[fd] in p.offset)
    && SharingIsSound(p.path, p.cell)
  }

  ghost predicate SharingIsSound(path: map<int, Path>, cell: map<int, nat>) {
    forall a, b {:trigger SameOffsetSameFile(path, cell, a, b)} :: SameOffsetSameFile(path, cell, a, b)
  }

  predicate SameOffsetSameFile(path: map<int, Path>, cell: map<int, nat>, a: int, b: int) {
    a in path && b in path && a in cell && b in cell && cell[a] == cell[b] ==> path[a] == path[b]
  }

  lemma DupKeepsSharing(path: map<int, Path>, cell: map<int, nat>, fd: int, newFd: int)
    requires SharingIsSound(path, cell) && fd in path && fd in cell
    ensures SharingIsSound(path[newFd := path[fd]], cell[newFd := cell[fd]])
  {
    var path', cell' := path[newFd := path[fd]], cell[newFd := cell[fd]];
    forall a, b ensures SameOffsetSameFile(path', cell', a, b) {
      assert SameOffsetSameFile(path, cell, if a == newFd then fd else a, if b == newFd then fd else b);
    }
  }

  lemma OpenKeepsSharing(path: map<int, Path>, cell: map<int, nat>, fd: int, name: Path, newCell: nat)
    requires SharingIsSound(path, cell) && forall k :: k in cell ==> cell[k] != newCell
    ensures SharingIsSound(path[fd := name], cell[fd := newCell])
  {
    var path', cell' := path[fd := name], cell[fd := newCell];
    forall a, b ensures SameOffsetSameFile(path', cell', a, b) {
      assert SameOffsetSameFile(path, cell, a, b);
    }
  }

  lemma CloseKeepsSharing(path: map<int, Path>, cell: map<int, nat>, fd: int)
    requires SharingIsSound(path, cell)
    ensures SharingIsSound(path - {fd}, cell - {fd})
  {
    var path', cell' := path - {fd}, cell - {fd};
    forall a, b ensures SameOffsetSameFile(path', cell', a, b) {
      assert SameOffsetSameFile(path, cell, a, b);
    }
  }

  /** The offset of `c` moved to `o`. */
  function Moved(p: Plain, c: nat, o: nat): Plain {
    p.(offset := p.offset[c := o])
  }

  lemma MovedTwice(p: Plain, c: nat, a: nat, b: nat)
    ensures Moved(Moved(p, c, a), c, b) == Moved(p, c, b)
  {
    assert p.offset[c := a][c := b] == p.offset[c := b];
  }

  function OffsetOf(p: Plain, fd: int): nat
    requires fd in p.cell && p.cell[fd] in p.offset
  {
    p.offset[p.cell[fd]]
  }

  function FileOf(p: Plain, fd: int): Data
    requires fd in p.path && p.path[fd] in p.files
  {
    p.files[p.path[fd]]
  }

  /** The operation is one the application may make; a write leaves no hole in the file. */
  ghost predicate Allowed(p: Plain, op: Op) {
    Wired(p) &&
    match op
    case Open(fd, name, newCell) => fd !in p.path && newCell !in p.offset
    case Write(fd, data) => fd in p.path && OffsetOf(p, fd) <= |FileOf(p, fd)|
    case Dup(fd, newFd) => fd in p.path && newFd !in p.path
    case _ => op.fd in p.path
  }

  ghost function Result(p: Plain, op: Op): Data
    requires Allowed(p, op)
  {
    if op.Read? then PlainRead(FileOf(p, op.fd), OffsetOf(p, op.fd), op.count) else []
  }

  ghost function Next(p: Plain, op: Op): Plain
    requires Allowed(p, op)
  {
    match op
    case Open(fd, name, newCell) =>
      p.(files := if name in p.files then p.files else p.files[name := []],
         path := p.path[fd := name], cell := p.cell[fd := newCell], offset := p.offset[newCell := 0])
    case Read(fd, count) => Moved(p, p.cell[fd], OffsetOf(p, fd) + |Result(p, op)|)
    case Write(fd, data) =>
      p.(files := p.files[p.path[fd] := PlainWrite(FileOf(p, fd), OffsetOf(p, fd), data)],
         offset := p.offset[p.cell[fd] := OffsetOf(p, fd) + |data|])
    case Seek(fd, position) => Moved(p, p.cell[fd], position)
    case Dup(fd, newFd) => p.(path := p.path[newFd := p.path[fd]], cell := p.cell[newFd := p.cell[fd]])
    case Close(fd) => p.(path := p.path - {fd}, cell := p.cell - {fd})
  }

  ghost predicate AllAllowed(p: Plain, ops: seq<Op>)
    decreases |ops|
  {
    ops == [] || (Allowed(p, ops[0]) && AllAllowed(Next(p, ops[0]), ops[1..]))
  }

  ghost function Results(p: Plain, ops: seq<Op>): seq<Data>
    requires AllAllowed(p, ops)
    decreases |ops|
  {
    if ops == [] then [] else [Result(p, ops[0])] + Results(Next(p, ops[0]), ops[1..])
  }

  ghost function FinalFiles(p: Plain, ops: seq<Op>): Plain
    requires AllAllowed(p, ops)
    decreases |ops|
  {
    if ops == [] then p else FinalFiles(Next(p, ops[0]), ops[1..])
  }

  // ---------------------------------------------------------------------------
  // What the operations mean to the application
  // ---------------------------------------------------------------------------

  /** No operation but a write changes a file, and a write changes only the file and the range it writes. */
  lemma NextKeepsFiles(p: Plain, op: Op, name: Path)
    requires Allowed(p, op) && name in p.files
    ensures name in Next(p, op).files
    ensures !(op.Write? && p.path[op.fd] == name) ==> Next(p, op).files[name] == p.files[name]
    ensures op.Write? && p.path[op.fd] == name ==>
      var was, now, at := p.files[name], Next(p, op).files[name], OffsetOf(p, op.fd);
      && |now| == Max(|was|, at + |op.data|) && now[at..at + |op.data|] == op.data
      && forall i :: 0 <= i < |was| && !(at <= i < at + |op.data|) ==> now[i] == was[i]
  {
  }

  /** The offset moves past the bytes read or written, or to where a seek puts it. */
  function EndOf(p: Plain, op: Op): int
    requires Wired(p) && op.fd in p.path
  {
    match op
    case Read(fd, count) => Min(OffsetOf(p, fd) + count, Max(OffsetOf(p, fd), |FileOf(p, fd)|))
    case Write(fd, data) => OffsetOf(p, fd) + |data|
    case Seek(fd, position) => position
    case _ => OffsetOf(p, op.fd)
  }

  /** A descriptor open before the call has the same file, and moves only with one it shares its offset with. */
  lemma NextKeepsDescriptors(p: Plain, op: Op, fd: int)
    requires Allowed(p, op) && fd in p.path
    ensures var q := Next(p, op);
            && (fd in q.path <==> op != Close(fd))
            && (fd in q.path ==>
                  && fd in q.cell && q.cell[fd] in q.offset && q.path[fd] == p.path[fd]
                  && OffsetOf(q, fd) == if op.fd in p.path && p.cell[op.fd] == p.cell[fd] then EndOf(p, op)
                                        else OffsetOf(p, fd))
  {
    hide SharingIsSound;
  }

  /** A new descriptor is at the start of its file; a duplicate is where its original is and moves with it. */
  lemma NextOpens(p: Plain, op: Op)
    requires Allowed(p, op)
    ensures var q := Next(p, op);
            && (op.Open? ==> q.path[op.fd] == op.name && op.name in q.files && OffsetOf(q, op.fd) == 0
                             && (op.name !in p.files ==> q.files[op.name] == [])
                             && forall fd :: fd in p.path ==> q.cell[fd] != q.cell[op.fd])
            && (op.Dup? ==> q.path[op.newFd] == p.path[op.fd] && q.cell[op.newFd] == q.cell[op.fd])
  {
    hide SharingIsSound;
  }

  /** What is written is what is read back, over the same descriptor or another one of the file. */
  lemma WriteThenRead(p: Plain, fd: int, data: Data, other: int)
    requires Allowed(p, Write(fd, data)) && other in p.path && p.path[other] == p.path[fd]
    ensures var q := Next(p, Write(fd, data));
            var r := Moved(q, q.cell[other], OffsetOf(p, fd));
            PlainRead(FileOf(r, other), OffsetOf(r, other), |data|) == data
  {
    hide SharingIsSound;
    var now := PlainWrite(FileOf(p, fd), OffsetOf(p, fd), data);
    assert now[OffsetOf(p, fd)..OffsetOf(p, fd) + |data|] == data;
  }
}
