/**
 The descriptor tables of the client: the paths with their open descriptors, the path of each
 descriptor, and for each descriptor its flags and an offset that duplicates share. They are
 compared with one table from descriptors to a path and to the open they come from.
 */
module Descriptors {
  import opened Bytes

  /** The offset that a descriptor shares with its duplicates. */
  class OffsetCell {
    var value: int

    constructor (value: int)
      ensures this.value == value
    {
      this.value := value;
    }
  }

  datatype Entry = Entry(cell: OffsetCell, initSize: int, flags: int, cloexec: bool)

  // ---------------------------------------------------------------------------
  // One table for all three
  // ---------------------------------------------------------------------------

  /** A descriptor: the path it names, and the number of the open that it is a duplicate of. */
  datatype Fd = Fd(path: Path, root: nat)

  datatype Table = Table(fds: map<int, Fd>, known: set<Path>, offsets: map<nat, int>, next: nat)

  datatype Op =
    | Add(path: Path, fd: int, offset: int)
    | Dup(oldfd: int, newfd: int)
    | Delete(fd: int)
    | DeletePath(path: Path)
    | Rename(oldpath: Path, newpath: Path)
    | SetOffset(fd: int, offset: int)

  /** New descriptors and new paths are fresh, and the others exist. */
  predicate Allowed(t: Table, op: Op) {
    match op
    case Add(_, fd, _) => fd !in t.fds
    case Dup(oldfd, newfd) => oldfd in t.fds && newfd !in t.fds
    case Delete(fd) => fd in t.fds
    case DeletePath(path) => path in t.known
    case Rename(oldpath, newpath) => oldpath in t.known && (newpath !in t.known || newpath == oldpath)
    case SetOffset(fd, _) => fd in t.fds
  }

  function Next(t: Table, op: Op): Table
    requires Allowed(t, op)
  {
    match op
    case Add(path, fd, offset) =>
      t.(fds := t.fds[fd := Fd(path, t.next)], known := t.known + {path},
         offsets := t.offsets[t.next := offset], next := t.next + 1)
    case Dup(oldfd, newfd) => t.(fds := t.fds[newfd := t.fds[oldfd]])
    case Delete(fd) => t.(fds := t.fds - {fd})
    case DeletePath(path) =>
      t.(fds := map fd | fd in t.fds && t.fds[fd].path != path :: t.fds[fd], known := t.known - {path})
    case Rename(oldpath, newpath) =>
      t.(fds := map fd | fd in t.fds :: if t.fds[fd].path == oldpath then t.fds[fd].(path := newpath) else t.fds[fd],
         known := t.known - {oldpath} + {newpath})
    case SetOffset(fd, offset) => t.(offsets := t.offsets[t.fds[fd].root := offset])
  }

  predicate AllAllowed(t: Table, ops: seq<Op>)
    decreases |ops|
  {
    ops == [] || (Allowed(t, ops[0]) && AllAllowed(Next(t, ops[0]), ops[1..]))
  }

  function After(t: Table, ops: seq<Op>): Table
    requires AllAllowed(t, ops)
    decreases |ops|
  {
    if ops == [] then t else After(Next(t, ops[0]), ops[1..])
  }

  ghost predicate TableOk(t: Table) {
    forall fd :: fd in t.fds ==> t.fds[fd].path in t.known && t.fds[fd].root < t.next && t.fds[fd].root in t.offsets
  }

  lemma NextOk(t: Table, op: Op)
    requires TableOk(t) && Allowed(t, op)
    ensures TableOk(Next(t, op))
  {
  }

  // ---------------------------------------------------------------------------
  // The tables of the source
  // ---------------------------------------------------------------------------

  predicate In(paths: map<Path, set<int>>, p: Path, fd: int) {
    p in paths && fd in paths[p]
  }

  /** Each descriptor is in the set of its path and in no other. */
  ghost predicate Agree(paths: map<Path, set<int>>, descriptors: map<int, Path>) {
    && (forall fd :: fd in descriptors ==> In(paths, descriptors[fd], fd))
    && (forall p, fd {:trigger In(paths, p, fd)} :: In(paths, p, fd) ==> fd in descriptors && descriptors[fd] == p)
  }

  function WithFd(paths: map<Path, set<int>>, path: Path, fd: int): map<Path, set<int>> {
    paths[path := (if path in paths then paths[path] else {}) + {fd}]
  }

  /** std::unordered_map::insert keeps what is there. */
  function Inserted<V>(m: map<int, V>, fd: int, v: V): map<int, V> {
    if fd in m then m else m[fd := v]
  }

  lemma InsertAgrees(paths: map<Path, set<int>>, descriptors: map<int, Path>, path: Path, fd: int)
    requires Agree(paths, descriptors)
    ensures Agree(WithFd(paths, path, fd), Inserted(descriptors, fd, path))
            <==> fd !in descriptors || descriptors[fd] == path
  {
    var now, named := WithFd(paths, path, fd), Inserted(descriptors, fd, path);
    assert In(now, path, fd);
    forall p, x ensures In(now, p, x) <==> In(paths, p, x) || (p == path && x == fd) {}
  }

  lemma DeleteAgrees(paths: map<Path, set<int>>, descriptors: map<int, Path>, fd: int)
    requires Agree(paths, descriptors) && fd in descriptors
    ensures In(paths, descriptors[fd], fd)
    ensures Agree(paths[descriptors[fd] := paths[descriptors[fd]] - {fd}], descriptors - {fd})
  {
    var p := descriptors[fd];
    assert In(paths, p, fd);
    var now := paths[p := paths[p] - {fd}];
    forall q, x ensures In(now, q, x) <==> In(paths, q, x) && x != fd {
      if x == fd && In(paths, q, x) { assert q == p; }
    }
  }

  lemma DropAgrees(paths: map<Path, set<int>>, descriptors: map<int, Path>, path: Path)
    requires Agree(paths, descriptors) && path in paths && paths[path] == {}
    ensures Agree(paths - {path}, descriptors)
  {
    forall q, x ensures In(paths - {path}, q, x) <==> In(paths, q, x) {}
  }

  function Renamed(descriptors: map<int, Path>, fds: set<int>, path: Path): map<int, Path> {
    map fd | fd in descriptors :: if fd in fds then path else descriptors[fd]
  }

  /** The paths after the node of `oldpath` is put back under `newpath`, which a known path refuses. */
  function Moved(paths: map<Path, set<int>>, oldpath: Path, newpath: Path): map<Path, set<int>>
    requires oldpath in paths
  {
    var without := paths - {oldpath};
    if newpath in without then without else without[newpath := paths[oldpath]]
  }

  lemma RenameAgrees(paths: map<Path, set<int>>, descriptors: map<int, Path>, oldpath: Path, newpath: Path)
    requires Agree(paths, descriptors) && oldpath in paths
    ensures newpath in Moved(paths, oldpath, newpath)
    ensures var now := Moved(paths, oldpath, newpath);
            Agree(now, Renamed(descriptors, now[newpath], newpath))
            <==> newpath !in paths || newpath == oldpath || paths[oldpath] == {}
  {
    var now := Moved(paths, oldpath, newpath);
    var named := Renamed(descriptors, now[newpath], newpath);
    if newpath !in paths || newpath == oldpath {
      forall p, x
        ensures In(now, p, x) <==> if p == newpath then In(paths, oldpath, x) else p != oldpath && In(paths, p, x) {}
      forall fd | fd in named ensures In(now, named[fd], fd) { assert In(paths, descriptors[fd], fd); }
      forall p, x | In(now, p, x) ensures x in named && named[x] == p {
        assert x in paths[oldpath] ==> In(paths, oldpath, x);
      }
    } else {
      forall p, x ensures In(now, p, x) <==> p != oldpath && In(paths, p, x) {}
      EmptyOrNot(paths[oldpath]);
      forall fd | fd in named ensures In(paths, named[fd], fd) {
        assert In(paths, descriptors[fd], fd);
        assert fd in now[newpath] ==> In(paths, newpath, fd);
      }
      forall x | x in paths[oldpath] ensures x in named && named[x] == oldpath {
        assert In(paths, oldpath, x) && !In(paths, newpath, x);
      }
      assert forall x :: x in named && named[x] == oldpath ==> !In(now, oldpath, x);
    }
  }

  lemma RenamedNone(descriptors: map<int, Path>, path: Path)
    ensures Renamed(descriptors, {}, path) == descriptors
  {
  }

  lemma RenamedOne(descriptors: map<int, Path>, done: set<int>, fd: int, path: Path)
    requires fd in descriptors
    ensures Renamed(descriptors, done, path)[fd := path] == Renamed(descriptors, done + {fd}, path)
  {
  }

  lemma RenamedKeys(descriptors: map<int, Path>, fds: set<int>, path: Path)
    ensures Renamed(descriptors, fds, path).Keys == descriptors.Keys
  {
  }

  lemma MovedAreOpen(paths: map<Path, set<int>>, descriptors: map<int, Path>, oldpath: Path, newpath: Path)
    requires Agree(paths, descriptors) && oldpath in paths
    ensures forall fd :: fd in Moved(paths, oldpath, newpath)[newpath] ==> fd in descriptors
  {
    forall fd | fd in Moved(paths, oldpath, newpath)[newpath] ensures fd in descriptors {
      assert In(paths, oldpath, fd) || In(paths, newpath, fd);
    }
  }

  class Tables {
    var paths: map<Path, set<int>>
    var descriptors: map<int, Path>
    var files: map<int, Entry>

    constructor ()
      ensures paths == map[] && descriptors == map[] && files == map[]
    {
      paths, descriptors, files := map[], map[], map[];
    }

    /** The three maps name the same descriptors, each in the set of its path and in no other. */
    ghost predicate Consistent()
      reads this
    {
      descriptors.Keys == files.Keys && Agree(paths, descriptors)
    }

    /** add_capio_fd */
    method AddFd(path: Path, fd: int, offset: int, initSize: int, flags: int, cloexec: bool) returns (cell: OffsetCell)
      requires Consistent()
      modifies this
      ensures Consistent() <==> fd !in old(descriptors) || old(descriptors)[fd] == path
      ensures fresh(cell) && cell.value == offset
      ensures paths == WithFd(old(paths), path, fd) && descriptors == Inserted(old(descriptors), fd, path)
      ensures files == Inserted(old(files), fd, Entry(cell, initSize, flags, cloexec))
    {
      hide Agree;
      InsertAgrees(paths, descriptors, path, fd);
      if path !in paths { paths := paths[path := {}]; }
      paths := paths[path := paths[path] + {fd}];
      assert paths == WithFd(old(paths), path, fd);
      if fd !in descriptors { descriptors := descriptors[fd := path]; }
      cell := new OffsetCell(offset);
      if fd !in files { files := files[fd := Entry(cell, initSize, flags, cloexec)]; }
    }

    /** dup_capio_fd; a descriptor that is not there throws before anything changes. */
    method DupFd(oldfd: int, newfd: int, cloexec: bool) returns (ok: bool)
      requires Consistent()
      modifies this
      ensures ok <==> oldfd in old(descriptors)
      ensures !ok ==> paths == old(paths) && descriptors == old(descriptors) && files == old(files)
      ensures ok ==> (Consistent()
                      <==> newfd !in old(descriptors) || old(descriptors)[newfd] == old(descriptors)[oldfd])
      ensures ok ==> var path := old(descriptors)[oldfd];
                     paths == WithFd(old(paths), path, newfd) && descriptors == Inserted(old(descriptors), newfd, path)
      ensures ok ==> var kept := Inserted(old(files), newfd, old(files)[oldfd]);
                     files == kept[newfd := kept[newfd].(cloexec := cloexec)]
    {
      if oldfd !in descriptors { return false; }
      var path := descriptors[oldfd];
      assert In(paths, path, oldfd);
      InsertAgrees(paths, descriptors, path, newfd);
      paths := paths[path := paths[path] + {newfd}];
      if newfd !in files { files := files[newfd := files[oldfd]]; }
      files := files[newfd := files[newfd].(cloexec := cloexec)];
      if newfd !in descriptors { descriptors := descriptors[newfd := descriptors[oldfd]]; }
      return true;
    }

    /** delete_capio_fd; a descriptor that is not there throws before anything changes. */
    method DeleteFd(fd: int) returns (ok: bool)
      requires Consistent()
      modifies this
      ensures Consistent()
      ensures ok <==> fd in old(descriptors)
      ensures !ok ==> paths == old(paths)
      ensures ok ==> In(old(paths), old(descriptors)[fd], fd)
                     && paths == old(paths)[old(descriptors)[fd] := old(paths)[old(descriptors)[fd]] - {fd}]
      ensures descriptors == old(descriptors) - {fd} && files == old(files) - {fd}
    {
      hide Agree;
      if fd !in descriptors { return false; }
      DeleteAgrees(paths, descriptors, fd);
      var path := descriptors[fd];
      paths := paths[path := paths[path] - {fd}];
      descriptors := descriptors - {fd};
      files := files - {fd};
      return true;
    }

    /** delete_capio_path: the descriptors in whatever order the set gives them. */
    method DeletePath(path: Path) returns (ok: bool)
      requires Consistent()
      modifies this
      ensures Consistent()
      ensures ok <==> path in old(paths)
      ensures paths == old(paths) - {path}
      ensures ok ==> descriptors == old(descriptors) - old(paths)[path] && files == old(files) - old(paths)[path]
      ensures !ok ==> descriptors == old(descriptors) && files == old(files)
    {
      if path !in paths { return false; }
      var todo := paths[path];
      while todo != {}
        invariant Consistent() && todo <= old(paths)[path]
        invariant paths == old(paths)[path := todo]
        invariant descriptors == old(descriptors) - (old(paths)[path] - todo)
        invariant files == old(files) - (old(paths)[path] - todo)
        decreases |todo|
      {
        var fd := AnyOf(todo);
        assert In(paths, path, fd);
        var deleted := DeleteFd(fd);
        todo := todo - {fd};
      }
      DropAgrees(paths, descriptors, path);
      paths := paths - {path};
      return true;
    }

    /** rename_capio_path, for a path that is known. */
    method RenamePath(oldpath: Path, newpath: Path)
      requires Consistent() && oldpath in paths
      modifies `paths, `descriptors
      ensures Consistent() <==> newpath !in old(paths) || newpath == oldpath || old(paths)[oldpath] == {}
      ensures paths == Moved(old(paths), oldpath, newpath) && newpath in paths
      ensures descriptors == Renamed(old(descriptors), paths[newpath], newpath)
    {
      hide Agree, Renamed;
      RenameAgrees(paths, descriptors, oldpath, newpath);
      var fds := paths[oldpath];
      paths := paths - {oldpath};
      if newpath !in paths { paths := paths[newpath := fds]; }
      assert paths == Moved(old(paths), oldpath, newpath);
      var todo := paths[newpath];
      RenamedNone(descriptors, newpath);
      MovedAreOpen(old(paths), descriptors, oldpath, newpath);
      ghost var done := {};
      while todo != {}
        invariant paths == Moved(old(paths), oldpath, newpath)
        invariant done + todo == paths[newpath] && descriptors == Renamed(old(descriptors), done, newpath)
        decreases |todo|
      {
        var fd := AnyOf(todo);
        RenamedOne(old(descriptors), done, fd, newpath);
        descriptors := descriptors[fd := newpath];
        todo, done := todo - {fd}, done + {fd};
      }
      assert done == paths[newpath];
      RenamedKeys(old(descriptors), done, newpath);
    }

    /** set_capio_fd_offset */
    method SetFdOffset(fd: int, offset: int) returns (ok: bool)
      modifies if fd in files then {files[fd].cell} else {}
      ensures ok <==> fd in files
      ensures ok ==> files[fd].cell.value == offset
    {
      if fd !in files { return false; }
      files[fd].cell.value := offset;
      return true;
    }
  }

  /** The path of each descriptor, and the paths that are known. */
  ghost predicate Names(descriptors: map<int, Path>, known: set<Path>, t: Table) {
    && known == t.known && descriptors.Keys == t.fds.Keys
    && forall fd :: fd in descriptors ==> descriptors[fd] == t.fds[fd].path
  }

  /** Two descriptors share an offset if and only if duplicating led from one open to both. */
  ghost predicate Shares(files: map<int, Entry>, t: Table) {
    && files.Keys == t.fds.Keys
    && (forall a, b :: a in files && b in files ==>
          (files[a].cell == files[b].cell <==> t.fds[a].root == t.fds[b].root))
  }

  function Cells(files: map<int, Entry>): set<OffsetCell> {
    set fd | fd in files :: files[fd].cell
  }

  ghost predicate Offsets(files: map<int, Entry>, t: Table)
    reads Cells(files)
  {
    forall fd :: fd in files && fd in t.fds && t.fds[fd].root in t.offsets ==>
      files[fd].cell in Cells(files) && files[fd].cell.value == t.offsets[t.fds[fd].root]
  }

  ghost predicate Refines(s: Tables, t: Table)
    reads s, Cells(s.files)
  {
    s.Consistent() && TableOk(t) && Names(s.descriptors, s.paths.Keys, t) && Shares(s.files, t) && Offsets(s.files, t)
  }

  lemma AddShares(paths: map<Path, set<int>>, descriptors: map<int, Path>, files: map<int, Entry>, t: Table,
                  path: Path, fd: int, offset: int, e: Entry)
    requires TableOk(t) && Names(descriptors, paths.Keys, t) && Shares(files, t)
    requires Allowed(t, Add(path, fd, offset)) && e.cell !in Cells(files)
    ensures var now := Next(t, Add(path, fd, offset));
            && Names(Inserted(descriptors, fd, path), WithFd(paths, path, fd).Keys, now)
            && Shares(Inserted(files, fd, e), now)
  {
    assert forall x :: x in files ==> files[x].cell in Cells(files);
  }

  lemma DupShares(paths: map<Path, set<int>>, descriptors: map<int, Path>, files: map<int, Entry>, t: Table,
                  oldfd: int, newfd: int, cloexec: bool)
    requires TableOk(t) && Names(descriptors, paths.Keys, t) && Shares(files, t)
    requires Allowed(t, Dup(oldfd, newfd)) && descriptors[oldfd] in paths
    ensures var now, kept, path := Next(t, Dup(oldfd, newfd)), Inserted(files, newfd, files[oldfd]), descriptors[oldfd];
            && Names(Inserted(descriptors, newfd, path), WithFd(paths, path, newfd).Keys, now)
            && Shares(kept[newfd := kept[newfd].(cloexec := cloexec)], now)
  {
  }

  method ApplyAdd(s: Tables, path: Path, fd: int, offset: int, flags: int, cloexec: bool, ghost t: Table)
    requires Refines(s, t) && Allowed(t, Add(path, fd, offset))
    modifies s
    ensures Refines(s, Next(t, Add(path, fd, offset))) && fresh(Cells(s.files) - old(Cells(s.files)))
  {
    NextOk(t, Add(path, fd, offset));
    assert fd !in s.descriptors && fd !in s.files;
    hide Agree, Names, Shares, TableOk;
    var cell := s.AddFd(path, fd, offset, 0, flags, cloexec);
    AddShares(old(s.paths), old(s.descriptors), old(s.files), t, path, fd, offset, Entry(cell, 0, flags, cloexec));
  }

  method ApplyDup(s: Tables, oldfd: int, newfd: int, cloexec: bool, ghost t: Table)
    requires Refines(s, t) && Allowed(t, Dup(oldfd, newfd))
    modifies s
    ensures Refines(s, Next(t, Dup(oldfd, newfd))) && fresh(Cells(s.files) - old(Cells(s.files)))
  {
    NextOk(t, Dup(oldfd, newfd));
    assert In(s.paths, s.descriptors[oldfd], oldfd) && newfd !in s.descriptors;
    hide Agree, Names, Shares, TableOk;
    DupShares(s.paths, s.descriptors, s.files, t, oldfd, newfd, cloexec);
    var ok := s.DupFd(oldfd, newfd, cloexec);
  }

  method ApplyDelete(s: Tables, fd: int, ghost t: Table)
    requires Refines(s, t) && Allowed(t, Delete(fd))
    modifies s
    ensures Refines(s, Next(t, Delete(fd))) && fresh(Cells(s.files) - old(Cells(s.files)))
  {
    hide Agree;
    NextOk(t, Delete(fd));
    var ok := s.DeleteFd(fd);
  }

  lemma DeletePathNames(paths: map<Path, set<int>>, descriptors: map<int, Path>, files: map<int, Entry>,
                        path: Path, t: Table)
    requires Agree(paths, descriptors) && Names(descriptors, paths.Keys, t) && Shares(files, t) && path in paths
    ensures Names(descriptors - paths[path], (paths - {path}).Keys, Next(t, DeletePath(path)))
    ensures Shares(files - paths[path], Next(t, DeletePath(path)))
  {
    forall fd | fd in descriptors ensures fd in paths[path] <==> t.fds[fd].path == path {
      assert In(paths, descriptors[fd], fd);
      assert fd in paths[path] ==> In(paths, path, fd);
    }
    var now := Next(t, DeletePath(path));
    assert (descriptors - paths[path]).Keys == now.fds.Keys;
    assert (files - paths[path]).Keys == now.fds.Keys;
  }

  lemma RenameNames(paths: map<Path, set<int>>, descriptors: map<int, Path>, files: map<int, Entry>,
                    oldpath: Path, newpath: Path, t: Table)
    requires Agree(paths, descriptors) && Names(descriptors, paths.Keys, t) && Shares(files, t)
    requires Allowed(t, Rename(oldpath, newpath))
    ensures var now := Moved(paths, oldpath, newpath);
            Names(Renamed(descriptors, now[newpath], newpath), now.Keys, Next(t, Rename(oldpath, newpath)))
    ensures Shares(files, Next(t, Rename(oldpath, newpath)))
  {
    var now := Moved(paths, oldpath, newpath);
    forall fd | fd in descriptors ensures fd in now[newpath] <==> t.fds[fd].path == oldpath {
      assert In(paths, descriptors[fd], fd);
      assert fd in paths[oldpath] ==> In(paths, oldpath, fd);
    }
  }

  /** A rename leaves every offset, and every descriptor the offset it has. */
  lemma RenameRoots(t: Table, oldpath: Path, newpath: Path)
    requires Allowed(t, Rename(oldpath, newpath))
    ensures var now := Next(t, Rename(oldpath, newpath));
            && now.offsets == t.offsets && now.fds.Keys == t.fds.Keys
            && forall fd :: fd in t.fds ==> now.fds[fd].root == t.fds[fd].root
  {
  }

  method ApplyDeletePath(s: Tables, path: Path, ghost t: Table)
    requires Refines(s, t) && Allowed(t, DeletePath(path))
    modifies s
    ensures Refines(s, Next(t, DeletePath(path))) && fresh(Cells(s.files) - old(Cells(s.files)))
  {
    NextOk(t, DeletePath(path));
    assert path in s.paths;
    hide Agree, Names, Shares, TableOk;
    DeletePathNames(s.paths, s.descriptors, s.files, path, t);
    var ok := s.DeletePath(path);
  }

  method ApplyRename(s: Tables, oldpath: Path, newpath: Path, ghost t: Table)
    requires Refines(s, t) && Allowed(t, Rename(oldpath, newpath))
    modifies s
    ensures Refines(s, Next(t, Rename(oldpath, newpath))) && fresh(Cells(s.files) - old(Cells(s.files)))
  {
    NextOk(t, Rename(oldpath, newpath));
    assert oldpath in s.paths && (newpath !in s.paths || newpath == oldpath);
    hide Agree, Names, Shares, TableOk, Renamed, Moved, Next;
    RenameRoots(t, oldpath, newpath);
    RenameNames(s.paths, s.descriptors, s.files, oldpath, newpath, t);
    s.RenamePath(oldpath, newpath);
  }

  method ApplySetOffset(s: Tables, fd: int, offset: int, ghost t: Table)
    requires Refines(s, t) && Allowed(t, SetOffset(fd, offset))
    modifies Cells(s.files)
    ensures Refines(s, Next(t, SetOffset(fd, offset))) && s.files == old(s.files)
  {
    hide Agree;
    NextOk(t, SetOffset(fd, offset));
    assert s.files[fd].cell in Cells(s.files);
    var ok := s.SetFdOffset(fd, offset);
  }

  method Apply(s: Tables, op: Op, ghost t: Table)
    requires Refines(s, t) && Allowed(t, op)
    modifies s, Cells(s.files)
    ensures Refines(s, Next(t, op)) && fresh(Cells(s.files) - old(Cells(s.files)))
  {
    hide Refines, Next;
    match op
    case Add(path, fd, offset) => ApplyAdd(s, path, fd, offset, 0, false, t);
    case Dup(oldfd, newfd) => ApplyDup(s, oldfd, newfd, false, t);
    case Delete(fd) => ApplyDelete(s, fd, t);
    case DeletePath(path) => ApplyDeletePath(s, path, t);
    case Rename(oldpath, newpath) => ApplyRename(s, oldpath, newpath, t);
    case SetOffset(fd, offset) => ApplySetOffset(s, fd, offset, t);
  }

  /** Over any run, the three maps are the one table, and descriptors share offsets as it says. */
  method Run(s: Tables, ops: seq<Op>, ghost t: Table)
    requires Refines(s, t) && AllAllowed(t, ops)
    modifies s, Cells(s.files)
    ensures Refines(s, After(t, ops)) && fresh(Cells(s.files) - old(Cells(s.files)))
    decreases |ops|
  {
    hide Refines, Next, Allowed;
    if ops != [] {
      Apply(s, ops[0], t);
      Run(s, ops[1..], Next(t, ops[0]));
    }
  }

  /** The one table before anything is opened. */
  function EmptyTable(): Table { Table(map[], {}, map[], 0) }

  lemma StartRefines(s: Tables)
    requires s.paths == map[] && s.descriptors == map[] && s.files == map[]
    ensures Refines(s, EmptyTable())
  {
    assert s.files.Keys == {};
  }

  /** From the start of a client, whatever it then does, its tables are the one table. */
  method RunFromStart(ops: seq<Op>) returns (s: Tables)
    requires AllAllowed(EmptyTable(), ops)
    ensures fresh(s) && Refines(s, After(EmptyTable(), ops))
  {
    s := new Tables();
    StartRefines(s);
    hide Refines, AllAllowed, After;
    assert Cells(s.files) == {};
    Run(s, ops, EmptyTable());
  }

  // ---------------------------------------------------------------------------
  // Three ways to make the maps disagree
  // ---------------------------------------------------------------------------

  method Opened(p: Path, q: Path) returns (s: Tables)
    ensures fresh(s) && s.Consistent()
    ensures s.descriptors == map[3 := p, 4 := q] && p in s.paths && q in s.paths && 3 in s.paths[p]
  {
    s := new Tables();
    assert s.Consistent();
    var first := s.AddFd(p, 3, 0, 0, 0, false);
    var second := s.AddFd(q, 4, 0, 0, 0, false);
  }

  /** A descriptor opened again, of another path, is in the sets of both. */
  method AddedTwice(p: Path, q: Path) returns (s: Tables)
    requires p != q
    ensures !s.Consistent()
  {
    s := Opened(p, q);
    var cell := s.AddFd(q, 3, 0, 0, 0, false);
  }

  /** So is one that a descriptor of another path is duplicated onto. */
  method DuplicatedOntoUsed(p: Path, q: Path) returns (s: Tables)
    requires p != q
    ensures !s.Consistent()
  {
    s := Opened(p, q);
    var ok := s.DupFd(3, 4, false);
  }

  /** A path renamed onto a known one leaves its descriptors in no set. */
  method RenamedOntoKnown(p: Path, q: Path) returns (s: Tables)
    requires p != q
    ensures !s.Consistent()
  {
    s := Opened(p, q);
    s.RenamePath(p, q);
  }

  method AnyOf(s: set<int>) returns (fd: int)
    requires s != {}
    ensures fd in s
  {
    EmptyOrNot(s);
    fd :| fd in s;
  }

  lemma EmptyOrNot(s: set<int>)
    ensures s == {} || exists x :: x in s
  {
    if forall x :: x !in s { assert s == {}; }
  }
}
