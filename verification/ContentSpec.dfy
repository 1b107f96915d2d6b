/** Values the content cache is specified with: sums of sizes, the disk, and the reference eviction walk. */
module ContentSpec {
  import opened ContentEviction

  // ---------------------------------------------------------------------------
  // Sums over finite maps
  // ---------------------------------------------------------------------------

  ghost function Sum(sizes: map<string, nat>): nat
    decreases |sizes|
  {
    if sizes == map[] then 0
    else
      var p :| p in sizes;
      sizes[p] + Sum(sizes - {p})
  }

  /** The sum may be taken in any order. */
  lemma {:induction false} SumRemove(sizes: map<string, nat>, p: string)
    requires p in sizes
    ensures Sum(sizes) == sizes[p] + Sum(sizes - {p})
    decreases |sizes|
  {
    var q :| q in sizes && Sum(sizes) == sizes[q] + Sum(sizes - {q});
    if q != p {
      SumRemove(sizes - {q}, p);
      SumRemove(sizes - {p}, q);
      assert sizes - {q} - {p} == sizes - {p} - {q};
    }
  }

  ghost function Sizes(index: Index): map<string, nat> {
    map p | p in index :: index[p].size
  }

  ghost function Total(index: Index): nat {
    Sum(Sizes(index))
  }

  lemma TotalRemove(index: Index, p: string)
    requires p in index
    ensures Total(index) == index[p].size + Total(index - {p})
  {
    SumRemove(Sizes(index), p);
    assert Sizes(index) - {p} == Sizes(index - {p});
  }

  lemma TotalUpdate(index: Index, p: string, m: Meta)
    ensures Total(index[p := m]) == Total(index) + m.size - (if p in index then index[p].size else 0)
  {
    var after := index[p := m];
    TotalRemove(after, p);
    assert after - {p} == index - {p};
    if p in index {
      TotalRemove(index, p);
    } else {
      assert index - {p} == index;
    }
  }

  // ---------------------------------------------------------------------------
  // The operating system's side: names, files and open descriptors
  // ---------------------------------------------------------------------------

  /** A name can be removed while a descriptor still holds the file it named. */
  datatype Disk = Disk(names: map<string, nat>, files: map<nat, FileInfo>, fds: map<string, nat>, next: nat) {

    ghost predicate Ok() {
      && (forall p :: p in names ==> names[p] in files)
      && (forall i :: i in fds ==> fds[i] in files)
      && (forall p, q :: p in names && q in names && names[p] == names[q] ==> p == q)
      && (forall f :: f in files ==> f < next)
    }

    function Info(f: nat): FileInfo {
      if f in files then files[f] else FileInfo(0, 0)
    }

    /** Metadata of the file a path names, if it names one. */
    function Stat(path: string): FileInfo {
      if path in names then Info(names[path]) else FileInfo(0, 0)
    }

    /** Opening with O_CREATE. */
    function Create(path: string, now: int): Disk {
      if path in names then this
      else this.(names := names[path := next], files := files[next := FileInfo(0, now)], next := next + 1)
    }

    function Write(f: nat, info: FileInfo): Disk {
      this.(files := files[f := info])
    }

    function Bind(id: string, f: nat): Disk {
      this.(fds := fds[id := f])
    }

    function Unbind(id: string): Disk {
      this.(fds := fds - {id})
    }

    function Unlink(path: string): Disk {
      this.(names := names - {path})
    }

    /** The sizes of the files in the directory, without those whose metadata cannot be read. */
    function Readable(unreadable: set<string>): map<string, nat> {
      map p | p in names && p !in unreadable :: Stat(p).size
    }

    ghost function Usage(): nat {
      Sum(Readable({}))
    }

    /** The size of the content of `id` at `path`, read from its descriptor, else from the path, else 0. */
    function Size(id: string, path: string, fdStatOk: bool, pathStatOk: bool): nat {
      if id in fds && fdStatOk then Info(fds[id]).size
      else if pathStatOk then Stat(path).size
      else 0
    }
  }

  predicate OpenPath(pathOf: string -> string, os: Disk, path: string) {
    exists i :: i in os.fds && pathOf(i) == path
  }

  /** No descriptor holds a file that its own path no longer names. */
  ghost predicate Attached(pathOf: string -> string, os: Disk) {
    forall i :: i in os.fds ==> pathOf(i) in os.names && os.names[pathOf(i)] == os.fds[i]
  }

  /** Index and directory list the same files, and agree on size and time of every file that is not open. */
  ghost predicate Consistent(pathOf: string -> string, os: Disk, index: Index) {
    && os.Ok() && Attached(pathOf, os)
    && index.Keys == os.names.Keys
    && (forall p :: p in index && !OpenPath(pathOf, os, p) ==> index[p].Info() == os.Stat(p))
  }

  /** With nothing open, the tracked total is the usage of the directory. */
  lemma TotalIsUsage(pathOf: string -> string, os: Disk, index: Index)
    requires Consistent(pathOf, os, index) && os.fds == map[]
    ensures Total(index) == os.Usage()
  {
    forall p | p in index
      ensures index[p].Info() == os.Stat(p)
    {
      assert !OpenPath(pathOf, os, p);
    }
    assert Sizes(index) == os.Readable({});
  }

  // ---------------------------------------------------------------------------
  // What each operation does to the disk and to the index
  // ---------------------------------------------------------------------------

  /** How os.WriteFile ends: all written, nothing opened, or stopped after some bytes. */
  datatype WriteOutcome = Written | NotOpened | Partial(written: nat)

  datatype View = View(os: Disk, index: Index)

  /** The index built from the files in `paths`. */
  ghost function Hydrated(nameOf: string -> string, os: Disk, paths: set<string>): Index {
    map p | p in paths :: Meta(nameOf(p), os.Stat(p).modTime, os.Stat(p).size)
  }

  function Track(index: Index, id: string, path: string, info: FileInfo): Index {
    index[path := Meta(id, info.modTime, info.size)]
  }

  lemma OneLess(all: set<string>, todo: set<string>, skipped: set<string>, p: string)
    requires p in todo && todo <= all
    ensures all - (todo - {p}) - skipped == if p in skipped then all - todo - skipped else all - todo - skipped + {p}
  {
  }

  lemma HydratedNone(nameOf: string -> string, os: Disk)
    ensures Hydrated(nameOf, os, {}) == map[]
  {
  }

  lemma HydratedOneMore(nameOf: string -> string, os: Disk, paths: set<string>, p: string)
    ensures Hydrated(nameOf, os, paths + {p}) == Track(Hydrated(nameOf, os, paths), nameOf(p), p, os.Stat(p))
  {
  }

  function OpenView(pathOf: string -> string, v: View, id: string, now: int, openOk: bool, statOk: bool): View {
    if id in v.os.fds || !openOk then v
    else
      var path := pathOf(id);
      var made := v.os.Create(path, now);
      if path in v.index then View(made.Bind(id, made.names[path]), v.index)
      else if statOk then View(made.Bind(id, made.names[path]), Track(v.index, id, path, made.Stat(path)))
      else View(made, v.index)
  }

  /** os.WriteFile on the path of `id`. */
  function WriteFile(pathOf: string -> string, os: Disk, id: string, len: nat, now: int, w: WriteOutcome): Disk {
    if w.NotOpened? then os
    else
      var made := os.Create(pathOf(id), now);
      made.Write(made.names[pathOf(id)], FileInfo(if w.Written? then len else w.written, now))
  }

  function InsertView(pathOf: string -> string, v: View, id: string, len: nat, now: int, w: WriteOutcome, statOk: bool): View {
    var os := WriteFile(pathOf, v.os, id, len, now, w);
    View(os, if w.Written? && statOk then Track(v.index, id, pathOf(id), os.Stat(pathOf(id))) else v.index)
  }

  /** A write or truncation through the descriptor of `id`. */
  function FdWriteView(v: View, id: string, size: nat, now: int): View {
    if id in v.os.fds then v.(os := v.os.Write(v.os.fds[id], FileInfo(size, now))) else v
  }

  /** `n` bytes written at offset `off` through the descriptor of `id`. */
  function WrittenAt(v: View, id: string, off: nat, n: nat, now: int): View {
    if id !in v.os.fds || n == 0 then v
    else
      var had := v.os.Info(v.os.fds[id]).size;
      FdWriteView(v, id, if off + n > had then off + n else had, now)
  }

  /** trackFileLocked: refresh the index from os.Stat of the path. */
  function TrackView(pathOf: string -> string, v: View, id: string, statOk: bool): View {
    var path := pathOf(id);
    if statOk && path in v.os.names then v.(index := Track(v.index, id, path, v.os.Stat(path))) else v
  }

  /** InsertStream: the descriptor's and the path's metadata are read at different times. */
  function StreamView(pathOf: string -> string, v: View, id: string, copied: nat, now: int,
                      openOk: bool, fdStatOk: bool, truncateOk: bool, copyOk: bool, pathStatOk: bool): View {
    var bound := OpenView(pathOf, v, id, now, openOk, fdStatOk);
    var filled := FdWriteView(bound, id, copied, now);
    if id !in bound.os.fds || !truncateOk then bound
    else if !copyOk then filled
    else TrackView(pathOf, filled, id, pathStatOk)
  }

  function WriteAtView(pathOf: string -> string, v: View, id: string, off: nat, n: nat, now: int,
                       openOk: bool, fdStatOk: bool, writeOk: bool, pathStatOk: bool): View {
    var bound := OpenView(pathOf, v, id, now, openOk, fdStatOk);
    var filled := WrittenAt(bound, id, off, n, now);
    if id !in bound.os.fds then bound
    else if !writeOk then filled
    else TrackView(pathOf, filled, id, pathStatOk)
  }

  function CloseView(pathOf: string -> string, v: View, id: string, statOk: bool): View {
    if id !in v.os.fds then v
    else View(v.os.Unbind(id),
              if statOk then Track(v.index, id, pathOf(id), v.os.Info(v.os.fds[id])) else v.index)
  }

  /** The removal at the end of Delete, once the descriptor of `id` is closed. */
  function RemoveView(pathOf: string -> string, v: View, id: string, stuck: bool): View {
    var path := pathOf(id);
    if path in v.os.names && stuck then v
    else View(v.os.Unlink(path), v.index - {path})
  }

  // ---------------------------------------------------------------------------
  // Index and directory stay consistent
  // ---------------------------------------------------------------------------

  /** Opening leaves a file unindexed exactly if it is new to the index and its metadata cannot be read. */
  lemma OpenConsistent(pathOf: string -> string, v: View, id: string, now: int, openOk: bool, statOk: bool)
    requires Consistent(pathOf, v.os, v.index)
    ensures var r := OpenView(pathOf, v, id, now, openOk, statOk);
            Consistent(pathOf, r.os, r.index) <==> id in v.os.fds || !openOk || statOk || pathOf(id) in v.index
  {
    if id !in v.os.fds && openOk {
      var path, made := pathOf(id), v.os.Create(pathOf(id), now);
      BoundPaths(pathOf, made, id, made.names[path]);
      if path in v.index {
        assert made == v.os;
        BindConsistent(pathOf, v.os, v.index, id);
      } else {
        CreateBind(pathOf, v, id, now);
      }
    }
  }

  lemma BoundPaths(pathOf: string -> string, os: Disk, id: string, f: nat)
    ensures forall p :: OpenPath(pathOf, os.Bind(id, f), p) <==> OpenPath(pathOf, os, p) || p == pathOf(id)
  {
    var r := os.Bind(id, f);
    assert id in r.fds;
    forall p | OpenPath(pathOf, os, p)
      ensures OpenPath(pathOf, r, p)
    {
      var i :| i in os.fds && pathOf(i) == p;
      assert i in r.fds;
    }
  }

  lemma BindConsistent(pathOf: string -> string, os: Disk, index: Index, id: string)
    requires Consistent(pathOf, os, index) && pathOf(id) in index
    ensures Consistent(pathOf, os.Bind(id, os.names[pathOf(id)]), index)
  {
    BoundPaths(pathOf, os, id, os.names[pathOf(id)]);
    hide OpenPath;
  }

  /** From `os` to `r` at most the file at `path` is made or changed. */
  ghost predicate WroteOnly(os: Disk, r: Disk, path: string) {
    && r.Ok() && r.fds == os.fds && r.names.Keys == os.names.Keys + {path}
    && (forall p :: p in os.names ==> r.names[p] == os.names[p])
    && (forall p :: p in os.names && p != path ==> r.Stat(p) == os.Stat(p))
  }

  lemma SameOpenPaths(pathOf: string -> string, os: Disk, r: Disk)
    requires r.fds == os.fds
    ensures forall p :: OpenPath(pathOf, r, p) == OpenPath(pathOf, os, p)
  {
  }

  lemma WriteTracked(pathOf: string -> string, os: Disk, r: Disk, index: Index, path: string, m: Meta)
    requires Consistent(pathOf, os, index) && WroteOnly(os, r, path) && m.Info() == r.Stat(path)
    ensures Consistent(pathOf, r, index[path := m])
  {
    SameOpenPaths(pathOf, os, r);
    hide OpenPath;
  }

  lemma WriteUntracked(pathOf: string -> string, os: Disk, r: Disk, index: Index, path: string)
    requires Consistent(pathOf, os, index) && WroteOnly(os, r, path)
    ensures Consistent(pathOf, r, index) <==>
            OpenPath(pathOf, os, path) || (path in index && index[path].Info() == r.Stat(path))
  {
    SameOpenPaths(pathOf, os, r);
    if i :| i in os.fds && pathOf(i) == path {
      assert path in os.names;
    }
    hide OpenPath;
    assert path in r.names;
  }

  lemma CreateOnly(os: Disk, path: string, now: int)
    requires os.Ok()
    ensures WroteOnly(os, os.Create(path, now), path)
  {
  }

  lemma CreateBind(pathOf: string -> string, v: View, id: string, now: int)
    requires Consistent(pathOf, v.os, v.index) && pathOf(id) !in v.index
    ensures var path, made := pathOf(id), v.os.Create(pathOf(id), now);
            && path in made.names && !Consistent(pathOf, made, v.index)
            && Consistent(pathOf, made.Bind(id, made.names[path]), Track(v.index, id, path, made.Stat(path)))
  {
    var path, made := pathOf(id), v.os.Create(pathOf(id), now);
    CreateOnly(v.os, path, now);
    WriteUntracked(pathOf, v.os, made, v.index, path);
    var tracked := Track(v.index, id, path, made.Stat(path));
    WriteTracked(pathOf, v.os, made, v.index, path, tracked[path]);
    BindConsistent(pathOf, made, tracked, id);
    assert !OpenPath(pathOf, v.os, path) by {
      hide WroteOnly;
      assert forall i :: i in v.os.fds ==> pathOf(i) in v.os.names;
    }
  }

  lemma WriteFileOk(pathOf: string -> string, os: Disk, id: string, len: nat, now: int, w: WriteOutcome)
    requires os.Ok() && !w.NotOpened?
    ensures var r := WriteFile(pathOf, os, id, len, now, w);
            WroteOnly(os, r, pathOf(id)) && r.Stat(pathOf(id)) == FileInfo(if w.Written? then len else w.written, now)
  {
  }

  /**
   * A write whose result is not indexed goes unnoticed exactly if the file is open, to be indexed when
   * it is closed, or if the file ends up with the size and time that were indexed before.
   */
  lemma InsertConsistent(pathOf: string -> string, v: View, id: string, len: nat, now: int, w: WriteOutcome, statOk: bool)
    requires Consistent(pathOf, v.os, v.index)
    ensures var r := InsertView(pathOf, v, id, len, now, w, statOk);
            Consistent(pathOf, r.os, r.index) <==>
            w.NotOpened? || (w.Written? && statOk) || OpenPath(pathOf, v.os, pathOf(id)) ||
            (pathOf(id) in v.index && v.index[pathOf(id)].Info() == FileInfo(if w.Written? then len else w.written, now))
  {
    if !w.NotOpened? {
      var path, os := pathOf(id), WriteFile(pathOf, v.os, id, len, now, w);
      WriteFileOk(pathOf, v.os, id, len, now, w);
      hide WriteFile, WroteOnly, OpenPath;
      WriteUntracked(pathOf, v.os, os, v.index, path);
      var info := os.Stat(path);
      WriteTracked(pathOf, v.os, os, v.index, path, Meta(id, info.modTime, info.size));
      hide Consistent;
    }
  }

  lemma FdWriteConsistent(pathOf: string -> string, v: View, id: string, size: nat, now: int)
    requires Consistent(pathOf, v.os, v.index)
    ensures var r := FdWriteView(v, id, size, now); Consistent(pathOf, r.os, r.index)
  {
    var r := FdWriteView(v, id, size, now);
    forall p
      ensures OpenPath(pathOf, r.os, p) == OpenPath(pathOf, v.os, p)
    {
    }
    if id in v.os.fds {
      assert OpenPath(pathOf, v.os, pathOf(id));
    }
  }

  lemma WrittenAtConsistent(pathOf: string -> string, v: View, id: string, off: nat, n: nat, now: int)
    requires Consistent(pathOf, v.os, v.index)
    ensures var r := WrittenAt(v, id, off, n, now); Consistent(pathOf, r.os, r.index)
  {
    if id in v.os.fds && n > 0 {
      var had := v.os.Info(v.os.fds[id]).size;
      FdWriteConsistent(pathOf, v, id, if off + n > had then off + n else had, now);
    }
  }

  lemma TrackConsistent(pathOf: string -> string, v: View, id: string, statOk: bool)
    requires Consistent(pathOf, v.os, v.index)
    ensures var r := TrackView(pathOf, v, id, statOk); Consistent(pathOf, r.os, r.index)
  {
  }

  /** Closing without reading the metadata is harmless exactly if another id has the file open or it is as indexed. */
  lemma CloseConsistent(pathOf: string -> string, v: View, id: string, statOk: bool)
    requires Consistent(pathOf, v.os, v.index)
    ensures var r, path := CloseView(pathOf, v, id, statOk), pathOf(id);
            Consistent(pathOf, r.os, r.index) <==>
            id !in v.os.fds || statOk || OpenPath(pathOf, v.os.Unbind(id), path) ||
            (path in v.index && v.index[path].Info() == v.os.Stat(path))
  {
    var r := CloseView(pathOf, v, id, statOk);
    forall p | p != pathOf(id) && OpenPath(pathOf, v.os, p)
      ensures OpenPath(pathOf, r.os, p)
    {
      var i :| i in v.os.fds && pathOf(i) == p;
      assert i in r.os.fds;
    }
  }

  /** Shutdown closes every descriptor and refreshes nothing. */
  function CloseAllView(v: View): View {
    v.(os := v.os.(fds := map[]))
  }

  /** So a size changed through a descriptor stays unknown to the index. */
  lemma CloseAllConsistent(pathOf: string -> string, v: View)
    requires Consistent(pathOf, v.os, v.index)
    ensures var r := CloseAllView(v);
            Consistent(pathOf, r.os, r.index) <==> forall p :: p in v.index ==> v.index[p].Info() == v.os.Stat(p)
  {
    var r := CloseAllView(v);
    assert forall p :: !OpenPath(pathOf, r.os, p);
    assert forall p :: r.os.Stat(p) == v.os.Stat(p);
  }

  /** Deleting keeps index and directory consistent exactly when no other id has the same file open. */
  lemma RemoveConsistent(pathOf: string -> string, v: View, id: string, stuck: bool)
    requires Consistent(pathOf, v.os, v.index)
    ensures var r := RemoveView(pathOf, v, id, stuck);
            Consistent(pathOf, r.os, r.index) <==> stuck || !OpenPath(pathOf, v.os, pathOf(id))
  {
    var path, r := pathOf(id), RemoveView(pathOf, v, id, stuck);
    if path in v.os.names && !stuck {
      forall p
        ensures OpenPath(pathOf, r.os, p) == OpenPath(pathOf, v.os, p)
      {
      }
    }
  }

  /**
   * Delete as a whole. If the file can be removed, what matters is whether another id has it open; a
   * size that could not be read on closing matters only if the file stays.
   */
  lemma DeleteConsistent(pathOf: string -> string, v: View, id: string, statOk: bool, stuck: bool)
    requires Consistent(pathOf, v.os, v.index)
    ensures var r, shut := RemoveView(pathOf, CloseView(pathOf, v, id, statOk), id, stuck), CloseView(pathOf, v, id, statOk);
            Consistent(pathOf, r.os, r.index) <==>
            if stuck then Consistent(pathOf, shut.os, shut.index) else !OpenPath(pathOf, v.os.Unbind(id), pathOf(id))
  {
    var path, shut := pathOf(id), CloseView(pathOf, v, id, statOk);
    if stuck {
      hide Consistent, CloseView;
      if path !in shut.os.names {
        NothingRemoved(pathOf, v, id, statOk);
      }
    } else {
      ClosedElsewhere(pathOf, v, id, statOk);
      hide CloseView;
      RemovedFile(pathOf, shut, path);
    }
  }

  lemma NothingRemoved(pathOf: string -> string, v: View, id: string, statOk: bool)
    requires Consistent(pathOf, v.os, v.index) && pathOf(id) !in CloseView(pathOf, v, id, statOk).os.names
    ensures var shut := CloseView(pathOf, v, id, statOk); RemoveView(pathOf, shut, id, true) == shut
  {
    var path := pathOf(id);
    assert id !in v.os.fds;
    assert v.os.names - {path} == v.os.names && v.index - {path} == v.index;
  }

  /** Dropping one path from index and directory leaves them in agreement unless a descriptor still has its file. */
  lemma RemovedFile(pathOf: string -> string, v: View, path: string)
    requires v.os.Ok() && Attached(pathOf, v.os) && v.index.Keys == v.os.names.Keys
    requires forall p :: p in v.index && p != path && !OpenPath(pathOf, v.os, p) ==> v.index[p].Info() == v.os.Stat(p)
    ensures Consistent(pathOf, v.os.Unlink(path), v.index - {path}) <==> !OpenPath(pathOf, v.os, path)
  {
    var os := v.os.Unlink(path);
    forall p
      ensures OpenPath(pathOf, os, p) == OpenPath(pathOf, v.os, p)
    {
    }
  }

  /** Closing `id` changes nothing about the other paths. */
  lemma ClosedElsewhere(pathOf: string -> string, v: View, id: string, statOk: bool)
    requires Consistent(pathOf, v.os, v.index)
    ensures var r := CloseView(pathOf, v, id, statOk);
            && r.os.Ok() && Attached(pathOf, r.os) && r.index.Keys == r.os.names.Keys
            && (forall p :: OpenPath(pathOf, r.os, p) <==> OpenPath(pathOf, v.os.Unbind(id), p))
            && (forall p :: p in r.index && p != pathOf(id) && !OpenPath(pathOf, r.os, p) ==> r.index[p].Info() == r.os.Stat(p))
  {
    var r := CloseView(pathOf, v, id, statOk);
    ClosedPaths(pathOf, v, id, statOk);
    assert id in v.os.fds ==> pathOf(id) in v.os.names;
    hide OpenPath;
    assert r.index.Keys == r.os.names.Keys;
  }

  lemma ClosedPaths(pathOf: string -> string, v: View, id: string, statOk: bool)
    ensures var r := CloseView(pathOf, v, id, statOk);
            && (forall p :: OpenPath(pathOf, r.os, p) <==> OpenPath(pathOf, v.os.Unbind(id), p))
            && (forall p :: p != pathOf(id) ==> (OpenPath(pathOf, r.os, p) <==> OpenPath(pathOf, v.os, p)))
  {
    var r := CloseView(pathOf, v, id, statOk);
    assert r.os.fds == v.os.fds - {id};
    forall p | p != pathOf(id) && OpenPath(pathOf, v.os, p)
      ensures OpenPath(pathOf, r.os, p)
    {
      var i :| i in v.os.fds && pathOf(i) == p;
      assert i in r.os.fds;
    }
  }

  /** A directory read without a fault, with nothing open, is indexed consistently. */
  lemma HydratedConsistent(pathOf: string -> string, nameOf: string -> string, os: Disk, unreadable: set<string>)
    requires os.Ok() && os.fds == map[] && unreadable !! os.names.Keys
    ensures Consistent(pathOf, os, Hydrated(nameOf, os, os.names.Keys - unreadable))
  {
    assert os.names.Keys - unreadable == os.names.Keys;
  }

  /** Deleting through one id while another has the file open indexes a file that no longer exists. */
  lemma AliasedDeleteLeavesPhantom(pathOf: string -> string, v: View, id: string, other: string)
    requires Consistent(pathOf, v.os, v.index) && id != other && pathOf(id) == pathOf(other)
    requires id in v.os.fds && other in v.os.fds
    ensures var deleted := RemoveView(pathOf, CloseView(pathOf, v, id, true), id, false);
            var r := CloseView(pathOf, deleted, other, true);
            pathOf(id) in r.index && pathOf(id) !in r.os.names
  {
    var shut := CloseView(pathOf, v, id, true);
    assert other in shut.os.fds;
  }

  /** Evicting closed files keeps index and directory consistent. */
  lemma EvictConsistent(pathOf: string -> string, v: View, gone: set<string>)
    requires Consistent(pathOf, v.os, v.index)
    requires forall p :: p in gone ==> !OpenPath(pathOf, v.os, p)
    ensures Consistent(pathOf, v.os.(names := v.os.names - gone), v.index - gone)
  {
    var os := v.os.(names := v.os.names - gone);
    forall p
      ensures OpenPath(pathOf, os, p) == OpenPath(pathOf, v.os, p)
    {
    }
    forall i | i in os.fds
      ensures pathOf(i) in os.names
    {
      assert OpenPath(pathOf, v.os, pathOf(i));
    }
  }

  // ---------------------------------------------------------------------------
  // The reference eviction: a walk over the files sorted by (modTime, path)
  // ---------------------------------------------------------------------------

  function RankOf(index: Index, p: string): Key
    requires p in index
  {
    Key(index[p].modTime, p)
  }

  /** `order` lists the indexed paths once each, oldest first. */
  ghost predicate IsWalkOrder(order: seq<string>, index: Index) {
    && (forall i :: 0 <= i < |order| ==> order[i] in index)
    && (forall p :: p in index ==> p in order)
    && (forall i, j :: 0 <= i < j < |order| ==> order[i] != order[j])
    && (forall i, j :: 0 <= i < j < |order| ==> KeyLe(RankOf(index, order[i]), RankOf(index, order[j])))
  }

  /** Paths removed by walking `order`, skipping what must be kept, until the total fits. */
  ghost function Walk(order: seq<string>, index: Index, total: int, max: int, keep: set<string>): set<string>
    requires forall i :: 0 <= i < |order| ==> order[i] in index
    decreases |order|
  {
    if order == [] || total <= max then {}
    else if order[0] in keep then Walk(order[1..], index, total, max, keep)
    else {order[0]} + Walk(order[1..], index, total - index[order[0]].size, max, keep)
  }

  /** Files an eviction pass must not remove: open, or impossible to delete. */
  ghost function Kept(pathOf: string -> string, v: View, stuck: set<string>): set<string> {
    set p | p in v.index && (OpenPath(pathOf, v.os, p) || (p in v.os.names && p in stuck))
  }

  ghost function Victims(pathOf: string -> string, v: View, stuck: set<string>, order: seq<string>, total: int, max: int): set<string>
    requires IsWalkOrder(order, v.index)
  {
    if max <= 0 then {} else Walk(order, v.index, total, max, Kept(pathOf, v, stuck))
  }

  ghost function Evicted(v: View, gone: set<string>): View {
    View(v.os.(names := v.os.names - gone), v.index - gone)
  }

  lemma NothingEvicted(v: View)
    ensures Evicted(v, {}) == v
  {
    assert v.os.names - {} == v.os.names && v.index - {} == v.index;
  }

  lemma WalkStep(order: seq<string>, k: nat, index: Index, total: int, max: int, keep: set<string>, gone: set<string>)
    requires k <= |order| && total > max && forall i :: 0 <= i < |order| ==> order[i] in index
    ensures k < |order| ==>
            gone + Walk(order[k..], index, total, max, keep) ==
            if order[k] in keep then gone + Walk(order[k + 1..], index, total, max, keep)
            else gone + {order[k]} + Walk(order[k + 1..], index, total - index[order[k]].size, max, keep)
  {
    if k < |order| {
      assert order[k..][1..] == order[k + 1..];
    }
  }

  lemma WalkEnd(order: seq<string>, k: nat, index: Index, total: int, max: int, keep: set<string>)
    requires k <= |order| && forall i :: 0 <= i < |order| ==> order[i] in index
    ensures k == |order| || total <= max ==> Walk(order[k..], index, total, max, keep) == {}
  {
  }

  /** A least path among those not yet walked is the next one in the order. */
  lemma NextInOrder(order: seq<string>, index: Index, k: nat, p: string)
    requires IsWalkOrder(order, index) && k <= |order| && p in order[k..]
    requires k < |order| ==> KeyLe(RankIn(index, p), RankIn(index, order[k]))
    ensures k < |order| && p == order[k]
  {
    var j :| k <= j < |order| && order[j] == p;
    KeyOrder();
    assert j > k ==> KeyLe(RankOf(index, order[k]), RankOf(index, order[j]));
  }

  /** Every entry carries an id whose content lives at the entry's own path. */
  ghost predicate OwnIds(pathOf: string -> string, index: Index) {
    forall p :: p in index ==> pathOf(index[p].id) == p
  }

  lemma OwnIdsEvicted(pathOf: string -> string, v: View, gone: set<string>)
    requires OwnIds(pathOf, v.index)
    ensures OwnIds(pathOf, Evicted(v, gone).index)
  {
  }

  /** After `k` steps the heap holds the rest of the order, and `deferred` what was skipped. */
  ghost predicate Walked(index: Index, pos: map<string, int>, order: seq<string>, k: nat, deferred: seq<string>) {
    && k <= |order|
    && (forall p :: p in index <==> p in pos)
    && (forall p :: p in index ==> (pos[p] == -1 <==> p in deferred))
    && (forall p :: p in index ==> (pos[p] == -1 <==> p !in order[k..]))
    && (forall j :: k <= j < |order| ==> order[j] in index)
    && (forall p :: p in deferred ==> p in index)
    && (forall i, j :: 0 <= i < j < |order| ==> order[i] != order[j])
    && (forall i, j :: 0 <= i < j < |deferred| ==> deferred[i] != deferred[j])
  }

  lemma WalkedDefer(index: Index, pos: map<string, int>, pos': map<string, int>, order: seq<string>, k: nat, deferred: seq<string>)
    requires Walked(index, pos, order, k, deferred) && k < |order|
    requires pos'.Keys == pos.Keys && pos'[order[k]] == -1
    requires forall q :: q in pos && q != order[k] ==> (pos'[q] == -1 <==> pos[q] == -1)
    ensures Walked(index, pos', order, k + 1, deferred + [order[k]])
  {
    assert order[k..] == [order[k]] + order[k + 1..];
  }

  lemma WalkedDrop(index: Index, pos: map<string, int>, pos': map<string, int>, order: seq<string>, k: nat, deferred: seq<string>)
    requires Walked(index, pos, order, k, deferred) && k < |order|
    requires pos'.Keys == pos.Keys && pos'[order[k]] == -1
    requires forall q :: q in pos && q != order[k] ==> (pos'[q] == -1 <==> pos[q] == -1)
    ensures Walked(index - {order[k]}, pos' - {order[k]}, order, k + 1, deferred)
  {
    assert order[k..] == [order[k]] + order[k + 1..];
  }

  lemma WalkedOut(ix: EvictionIndex, order: seq<string>, k: nat, deferred: seq<string>)
    requires ix.Valid() && |ix.heap| == 0 && Walked(ix.meta, ix.pos, order, k, deferred)
    ensures k == |order| && forall p :: p in ix.meta ==> p in deferred
  {
    StillInHeap(ix, order, k, deferred);
  }

  lemma StillInHeap(ix: EvictionIndex, order: seq<string>, k: nat, deferred: seq<string>)
    requires ix.Valid() && Walked(ix.meta, ix.pos, order, k, deferred)
    ensures k < |order| ==> |ix.heap| > 0
  {
    if k < |order| {
      assert order[k] in order[k..] && order[k] in ix.meta;
    }
  }

  lemma WalkedStart(ix: EvictionIndex, order: seq<string>)
    requires ix.Valid() && ix.Full() && IsWalkOrder(order, ix.meta)
    ensures Walked(ix.meta, ix.pos, order, 0, [])
  {
    assert order[0..] == order;
  }

  /** Mid-pass, an entry counts as kept just when it did before the pass. */
  lemma KeptNow(pathOf: string -> string, v0: View, gone: set<string>, p: string, stuck: set<string>)
    requires OwnIds(pathOf, v0.index) && p in v0.index && p !in gone
    ensures var v := Evicted(v0, gone);
            p in Kept(pathOf, v0, stuck) <==>
            (v.index[p].id != "" && v.index[p].id in v.os.fds) || OpenPath(pathOf, v.os, p) || (p in v.os.names && p in stuck)
  {
  }

  lemma EvictedOneMore(v: View, gone: set<string>, p: string)
    ensures Evicted(v, gone + {p}) == View(Evicted(v, gone).os.Unlink(p), Evicted(v, gone).index - {p})
  {
    assert v.os.names - (gone + {p}) == v.os.names - gone - {p};
    assert v.index - (gone + {p}) == v.index - gone - {p};
  }

  /** Only walked paths that need not be kept are removed, so no open file ever is. */
  lemma {:induction false} WalkSpares(order: seq<string>, index: Index, total: int, max: int, keep: set<string>)
    requires forall i :: 0 <= i < |order| ==> order[i] in index
    ensures forall p :: p in Walk(order, index, total, max, keep) ==> p in order && p !in keep
    decreases |order|
  {
    if order != [] && total > max {
      WalkSpares(order[1..], index, if order[0] in keep then total else total - index[order[0]].size, max, keep);
    }
  }

  /** No pass removes a file that some descriptor has open. */
  lemma OpenSpared(pathOf: string -> string, v: View, stuck: set<string>, order: seq<string>, total: int, max: int)
    requires IsWalkOrder(order, v.index)
    ensures forall p :: p in v.os.names && OpenPath(pathOf, v.os, p) ==>
              p in Evicted(v, Victims(pathOf, v, stuck, order, total, max)).os.names
  {
    WalkSpares(order, v.index, total, max, Kept(pathOf, v, stuck));
  }

  ghost predicate Sorted(order: seq<string>, index: Index) {
    && (forall i :: 0 <= i < |order| ==> order[i] in index)
    && (forall i, j :: 0 <= i < j < |order| ==>
          order[i] != order[j] && KeyLe(RankOf(index, order[i]), RankOf(index, order[j])))
  }

  lemma SortedTail(order: seq<string>, index: Index)
    requires Sorted(order, index) && order != []
    ensures Sorted(order[1..], index)
    ensures forall q :: q in order[1..] ==> q != order[0] && KeyLe(RankOf(index, order[0]), RankOf(index, q))
  {
    hide KeyLe;
    var tail := order[1..];
    assert forall i :: 0 <= i < |tail| ==> tail[i] == order[i + 1];
    forall q | q in tail
      ensures q != order[0] && KeyLe(RankOf(index, order[0]), RankOf(index, q))
    {
      var i :| 0 <= i < |tail| && tail[i] == q;
      assert order[i + 1] == q;
    }
  }

  /** A path that the walk removes comes before every path that it could have removed and did not. */
  lemma {:induction false} WalkOldestFirst(order: seq<string>, index: Index, total: int, max: int, keep: set<string>, p: string, q: string)
    requires Sorted(order, index) && p in Walk(order, index, total, max, keep)
    requires q in order && q !in keep && q !in Walk(order, index, total, max, keep)
    ensures p in index && p != q && KeyLe(RankOf(index, p), RankOf(index, q))
    decreases |order|
  {
    hide KeyLe;
    SortedTail(order, index);
    hide Sorted;
    assert order == [order[0]] + order[1..];
    if order[0] in keep {
      WalkOldestFirst(order[1..], index, total, max, keep, p, q);
    } else if p != order[0] {
      WalkOldestFirst(order[1..], index, total - index[order[0]].size, max, keep, p, q);
    }
  }

  /** The walk removes nothing it need not: without the last path removed, the total would not fit. */
  lemma {:induction false} WalkNeeded(order: seq<string>, index: Index, total: int, max: int, keep: set<string>, p: string)
    requires Sorted(order, index) && p in Walk(order, index, total, max, keep) && p in index
    requires forall q :: q in Walk(order, index, total, max, keep) ==> q in index && KeyLe(RankOf(index, q), RankOf(index, p))
    ensures total - (Total(index) - Total(index - Walk(order, index, total, max, keep))) + index[p].size > max
    decreases |order|
  {
    SortedTail(order, index);
    var first, tail := order[0], order[1..];
    if first in keep {
      WalkNeeded(tail, index, total, max, keep, p);
    } else {
      var left := total - index[first].size;
      var more := Walk(tail, index, left, max, keep);
      WalkSpares(tail, index, left, max, keep);
      assert first !in more;
      TotalRemove(index - more, first);
      assert index - more - {first} == index - ({first} + more);
      if p == first {
        KeyOrder();
        assert more == {} && index - more == index;
      } else {
        hide KeyLe;
        WalkNeeded(tail, index, left, max, keep, p);
      }
    }
  }

  /** A file that a pass must leave: open, or impossible to delete. */
  predicate MustStay(pathOf: string -> string, os: Disk, stuck: set<string>, p: string) {
    (exists i :: i in os.fds && pathOf(i) == p) || (p in os.names && p in stuck)
  }

  /**
   * What a pass does, said without the walk: it removes only what need not stay, older files before
   * younger ones and of equally old ones the earlier path first, and no more than it needs to.
   */
  ghost predicate EvictsOldest(pathOf: string -> string, v: View, stuck: set<string>, gone: set<string>, total: int, max: int) {
    && (max <= 0 || total <= max ==> gone == {})
    && (forall p :: p in gone ==> p in v.index && !MustStay(pathOf, v.os, stuck, p))
    && (forall p, q :: p in gone && p in v.index && q in v.index && q !in gone && !MustStay(pathOf, v.os, stuck, q) ==>
          Older(Key(v.index[p].modTime, p), Key(v.index[q].modTime, q)))
    && (forall p :: p in gone && p in v.index && LastOf(v.index, gone, p) ==>
          total - (Total(v.index) - Total(v.index - gone)) + v.index[p].size > max)
  }

  /** Every other path of `gone` is before `p`. */
  ghost predicate LastOf(index: Index, gone: set<string>, p: string)
    requires p in index
  {
    forall q :: q in gone && q != p ==> q in index && Older(Key(index[q].modTime, q), Key(index[p].modTime, p))
  }

  lemma KeptMustStay(pathOf: string -> string, v: View, stuck: set<string>)
    ensures forall p :: p in Kept(pathOf, v, stuck) ==> MustStay(pathOf, v.os, stuck, p)
  {
  }

  /** The index after a pass lacks exactly the victims. */
  lemma VictimsGone(pathOf: string -> string, v: View, stuck: set<string>, order: seq<string>, total: int, max: int)
    requires IsWalkOrder(order, v.index)
    ensures var gone := Victims(pathOf, v, stuck, order, total, max); v.index.Keys - Evicted(v, gone).index.Keys == gone
  {
    WalkSpares(order, v.index, total, max, Kept(pathOf, v, stuck));
  }

  lemma VictimsAreOldest(pathOf: string -> string, v: View, stuck: set<string>, order: seq<string>, total: int, max: int)
    requires IsWalkOrder(order, v.index)
    ensures EvictsOldest(pathOf, v, stuck, Victims(pathOf, v, stuck, order, total, max), total, max)
  {
    var gone, keep := Victims(pathOf, v, stuck, order, total, max), Kept(pathOf, v, stuck);
    assert forall p :: p in v.index ==> (p in keep <==> MustStay(pathOf, v.os, stuck, p));
    WalkSpares(order, v.index, total, max, keep);
    assert Sorted(order, v.index);
    hide KeyLe, Kept, MustStay, Sorted, Older;
    forall p, q | p in gone && p in v.index && q in v.index && q !in gone && !MustStay(pathOf, v.os, stuck, q)
      ensures Older(Key(v.index[p].modTime, p), Key(v.index[q].modTime, q))
    {
      WalkOldestFirst(order, v.index, total, max, keep, p, q);
      KeyLeMeans(RankOf(v.index, p), RankOf(v.index, q));
    }
    forall p | p in gone && p in v.index && LastOf(v.index, gone, p)
      ensures total - (Total(v.index) - Total(v.index - gone)) + v.index[p].size > max
    {
      forall q | q in gone
        ensures q in v.index && KeyLe(RankOf(v.index, q), RankOf(v.index, p))
      {
        KeyLeMeans(RankOf(v.index, q), RankOf(v.index, p));
      }
      WalkNeeded(order, v.index, total, max, keep, p);
    }
  }

  lemma LeastFirst(index: Index, first: string, tail: seq<string>)
    requires first in index && IsWalkOrder(tail, index - {first})
    requires forall p :: p in index ==> KeyLe(RankOf(index, first), RankOf(index, p))
    ensures IsWalkOrder([first] + tail, index)
  {
    hide KeyLe;
    var order := [first] + tail;
    forall i | 0 <= i < |order|
      ensures order[i] in index
    {
      assert i > 0 ==> tail[i - 1] in index - {first};
    }
    forall i, j | 0 <= i < j < |order|
      ensures order[i] != order[j] && KeyLe(RankOf(index, order[i]), RankOf(index, order[j]))
    {
      TailRanks(index, first, tail, i - 1, j - 1);
    }
    assert forall p :: p in order <==> p == first || p in tail;
  }

  lemma TailRanks(index: Index, first: string, tail: seq<string>, i: int, j: nat)
    requires first in index && IsWalkOrder(tail, index - {first}) && -1 <= i < j < |tail|
    ensures tail[j] in index && tail[j] != first
    ensures i >= 0 ==> tail[i] in index && tail[i] != tail[j] && KeyLe(RankOf(index, tail[i]), RankOf(index, tail[j]))
  {
    hide KeyLe;
    var rest := index - {first};
    assert tail[j] in rest;
    if i >= 0 {
      assert KeyLe(RankOf(rest, tail[i]), RankOf(rest, tail[j]));
    }
  }

  /** Every index has a walk order. */
  lemma {:induction false} WalkOrderExists(index: Index) returns (order: seq<string>)
    ensures IsWalkOrder(order, index)
    decreases |index|
  {
    if index == map[] {
      order := [];
    } else {
      var first := LeastPath(index);
      hide IsWalkOrder, KeyLe;
      assert |index - {first}| < |index| by {
        assert (index - {first}).Keys == index.Keys - {first};
      }
      var tail := WalkOrderExists(index - {first});
      LeastFirst(index, first, tail);
      order := [first] + tail;
    }
  }

  lemma {:induction false} LeastPath(index: Index) returns (least: string)
    requires index != map[]
    ensures least in index && forall p :: p in index ==> KeyLe(RankOf(index, least), RankOf(index, p))
    decreases |index|
  {
    KeyOrder();
    var q :| q in index;
    var rest := index - {q};
    if rest == map[] {
      least := q;
      assert forall p :: p in index ==> p == q || p in rest;
    } else {
      least := LeastPath(rest);
      assert forall p :: p in rest ==> RankOf(rest, p) == RankOf(index, p);
      if KeyLe(RankOf(index, q), RankOf(index, least)) {
        least := q;
      }
      assert forall p :: p in index ==> p == q || p in rest;
    }
  }
}
