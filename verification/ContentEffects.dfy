/** What each operation of the content cache leaves on disk and in the index, said for each file. */
module ContentEffects {
  import opened ContentEviction
  import opened ContentSpec

  /** Every path but `path` names the same file as before, and no file but those in `touched` has changed. */
  ghost predicate OtherwiseSame(a: Disk, b: Disk, path: string, touched: set<nat>) {
    && (forall p :: p != path ==> (p in b.names <==> p in a.names) && (p in a.names ==> b.names[p] == a.names[p]))
    && (forall f :: f in a.files && f !in touched ==> f in b.files && b.files[f] == a.files[f])
  }

  /** Opening reuses a descriptor, opens the file at the path, or makes an empty one. */
  lemma OpenEffect(pathOf: string -> string, v: View, id: string, now: int, openOk: bool, statOk: bool)
    requires v.os.Ok()
    ensures var r, path := OpenView(pathOf, v, id, now, openOk, statOk), pathOf(id);
            && (id in v.os.fds || !openOk ==> r == v)
            && (id !in v.os.fds && openOk ==>
                  && MadeAt(v.os, r.os, path, now)
                  && r.os.fds == (if path in v.index || statOk then v.os.fds[id := r.os.names[path]] else v.os.fds)
                  && r.index == (if path in v.index || !statOk then v.index
                                 else v.index[path := Meta(id, r.os.Stat(path).modTime, r.os.Stat(path).size)]))
  {
    CreateMakes(v.os, pathOf(id), now);
    if id !in v.os.fds && openOk {
      var path, made := pathOf(id), v.os.Create(pathOf(id), now);
      var r := OpenView(pathOf, v, id, now, openOk, statOk);
      assert r.os.names == made.names && r.os.files == made.files;
    }
  }

  /** The path names the file it named, or a new and empty one; every other file is as it was. */
  ghost predicate MadeAt(a: Disk, b: Disk, path: string, now: int) {
    && OtherwiseSame(a, b, path, {}) && path in b.names
    && (if path in a.names then b.names[path] == a.names[path]
        else b.names[path] !in a.files && b.Stat(path) == FileInfo(0, now))
  }

  lemma CreateMakes(os: Disk, path: string, now: int)
    requires os.Ok()
    ensures MadeAt(os, os.Create(path, now), path, now)
  {
  }

  /** A one-shot write leaves as many bytes as were written, and the index knows of them exactly if all went well. */
  lemma InsertEffect(pathOf: string -> string, v: View, id: string, len: nat, now: int, w: WriteOutcome, statOk: bool)
    requires v.os.Ok()
    ensures var r, path := InsertView(pathOf, v, id, len, now, w, statOk), pathOf(id);
            && r.os.fds == v.os.fds
            && (w.NotOpened? ==> r == v)
            && (w.Written? ==> path in r.os.names && r.os.Stat(path) == FileInfo(len, now))
            && (w.Partial? ==> path in r.os.names && r.os.Stat(path) == FileInfo(w.written, now))
            && (!w.NotOpened? ==> OtherwiseSame(v.os, r.os, path, {r.os.names[path]}))
            && r.index == (if w.Written? && statOk then v.index[path := Meta(id, now, len)] else v.index)
  {
  }

  /** A write through a descriptor changes its file and nothing else. */
  lemma FdWriteEffect(v: View, id: string, size: nat, now: int)
    ensures var r := FdWriteView(v, id, size, now);
            && r.os.names == v.os.names && r.os.fds == v.os.fds && r.index == v.index
            && (id !in v.os.fds ==> r == v)
            && (id in v.os.fds ==> r.os.files == v.os.files[v.os.fds[id] := FileInfo(size, now)])
  {
  }

  /** What the file of `id` holds before an operation on it: nothing if it has to be made. */
  function SizeBefore(pathOf: string -> string, os: Disk, id: string): nat {
    if id in os.fds then os.Info(os.fds[id]).size else os.Stat(pathOf(id)).size
  }

  /** The descriptor of `id` has the file that its path names. */
  ghost predicate Bound(pathOf: string -> string, os: Disk, id: string) {
    && id in os.fds && pathOf(id) in os.names && os.names[pathOf(id)] == os.fds[id] && os.fds[id] in os.files
  }

  lemma OpenBound(pathOf: string -> string, v: View, id: string, now: int)
    requires v.os.Ok() && Attached(pathOf, v.os)
    ensures var r := OpenView(pathOf, v, id, now, true, true);
            && Bound(pathOf, r.os, id) && r.os.Stat(pathOf(id)).size == SizeBefore(pathOf, v.os, id)
            && OtherwiseSame(v.os, r.os, pathOf(id), {}) && OnlyEntry(v.index, r.index, pathOf(id))
  {
    OpenEffect(pathOf, v, id, now, true, true);
    if id in v.os.fds {
      hide OpenView;
      assert pathOf(id) in v.os.names;
    } else {
      OpenKeepsFile(pathOf, v, id, now);
      hide OpenView;
    }
  }

  lemma OpenKeepsFile(pathOf: string -> string, v: View, id: string, now: int)
    requires v.os.Ok() && id !in v.os.fds
    ensures var r := OpenView(pathOf, v, id, now, true, true);
            && Bound(pathOf, r.os, id)
            && (pathOf(id) in v.os.names ==> r.os.Stat(pathOf(id)) == v.os.Stat(pathOf(id)))
  {
  }

  /** The two indexes differ at most in the entry of `path`. */
  ghost predicate OnlyEntry(a: Index, b: Index, path: string) {
    forall p :: p != path ==> (p in b <==> p in a) && (p in a ==> b[p] == a[p])
  }

  /** The file of a bound descriptor filled and tracked. */
  lemma Filled(pathOf: string -> string, v: View, id: string, size: nat, now: int)
    requires Bound(pathOf, v.os, id)
    ensures var r, path := TrackView(pathOf, FdWriteView(v, id, size, now), id, true), pathOf(id);
            && r.os == v.os.(files := v.os.files[v.os.fds[id] := FileInfo(size, now)])
            && r.os.Stat(path) == FileInfo(size, now) && r.index == v.index[path := Meta(id, now, size)]
  {
  }

  lemma SameButFile(a: Disk, b: Disk, path: string, f: nat, info: FileInfo)
    requires OtherwiseSame(a, b, path, {})
    ensures OtherwiseSame(a, b.(files := b.files[f := info]), path, {f})
  {
  }

  /** A streamed insert that succeeds leaves exactly the copied bytes, on disk and in the index. */
  lemma StreamEffect(pathOf: string -> string, v: View, id: string, copied: nat, now: int)
    requires v.os.Ok() && Attached(pathOf, v.os)
    ensures var r, path := StreamView(pathOf, v, id, copied, now, true, true, true, true, true), pathOf(id);
            && Bound(pathOf, r.os, id) && r.os.Stat(path) == FileInfo(copied, now)
            && path in r.index && r.index[path] == Meta(id, now, copied)
            && OtherwiseSame(v.os, r.os, path, {r.os.fds[id]}) && OnlyEntry(v.index, r.index, path)
  {
    OpenBound(pathOf, v, id, now);
    var bound := OpenView(pathOf, v, id, now, true, true);
    Filled(pathOf, bound, id, copied, now);
    SameButFile(v.os, bound.os, pathOf(id), bound.os.fds[id], FileInfo(copied, now));
    hide OpenView, FdWriteView, TrackView, OtherwiseSame;
  }

  /** A bound file after a positioned write, tracked. */
  ghost predicate WroteAt(pathOf: string -> string, v: View, r: View, id: string, off: nat, n: nat, now: int, had: nat) {
    var path := pathOf(id);
    && Bound(pathOf, r.os, id)
    && r.os.Stat(path).size == (if n == 0 || had >= off + n then had else off + n)
    && (n > 0 ==> r.os.Stat(path).modTime == now)
    && path in r.index && r.index[path] == Meta(id, r.os.Stat(path).modTime, r.os.Stat(path).size)
    && OtherwiseSame(v.os, r.os, path, {r.os.fds[id]}) && OnlyEntry(v.index, r.index, path)
  }

  /** A positioned write leaves the file as long as it was or as far as the write reached, on disk and in the index. */
  lemma WriteAtEffect(pathOf: string -> string, v: View, id: string, off: nat, n: nat, now: int)
    requires v.os.Ok() && Attached(pathOf, v.os)
    ensures WroteAt(pathOf, v, WriteAtView(pathOf, v, id, off, n, now, true, true, true, true), id, off, n, now,
                    SizeBefore(pathOf, v.os, id))
  {
    OpenBound(pathOf, v, id, now);
    var bound := OpenView(pathOf, v, id, now, true, true);
    hide OpenView, OtherwiseSame, SizeBefore, OnlyEntry, WroteAt;
    if n > 0 {
      SomeWritten(pathOf, v, bound, id, off, n, now);
    } else {
      NoneWritten(pathOf, v, bound, id, off, now);
    }
  }

  lemma SomeWritten(pathOf: string -> string, v: View, bound: View, id: string, off: nat, n: nat, now: int)
    requires Bound(pathOf, bound.os, id) && n > 0
    requires OtherwiseSame(v.os, bound.os, pathOf(id), {}) && OnlyEntry(v.index, bound.index, pathOf(id))
    ensures var r := TrackView(pathOf, WrittenAt(bound, id, off, n, now), id, true);
            WroteAt(pathOf, v, r, id, off, n, now, bound.os.Stat(pathOf(id)).size)
  {
    var had := bound.os.Stat(pathOf(id)).size;
    var size := if off + n > had then off + n else had;
    Filled(pathOf, bound, id, size, now);
    SameButFile(v.os, bound.os, pathOf(id), bound.os.fds[id], FileInfo(size, now));
    assert WrittenAt(bound, id, off, n, now) == FdWriteView(bound, id, size, now);
    hide OtherwiseSame, FdWriteView, TrackView, WrittenAt;
  }

  lemma NoneWritten(pathOf: string -> string, v: View, bound: View, id: string, off: nat, now: int)
    requires Bound(pathOf, bound.os, id)
    requires OtherwiseSame(v.os, bound.os, pathOf(id), {}) && OnlyEntry(v.index, bound.index, pathOf(id))
    ensures var r := TrackView(pathOf, WrittenAt(bound, id, off, 0, now), id, true);
            WroteAt(pathOf, v, r, id, off, 0, now, bound.os.Stat(pathOf(id)).size)
  {
    SameButFile(v.os, bound.os, pathOf(id), bound.os.fds[id], bound.os.files[bound.os.fds[id]]);
    assert bound.os.files[bound.os.fds[id] := bound.os.files[bound.os.fds[id]]] == bound.os.files;
    hide OtherwiseSame;
  }

  /** Closing gives up the one descriptor and records what its file has become. */
  lemma CloseEffect(pathOf: string -> string, v: View, id: string, statOk: bool)
    ensures var r, path := CloseView(pathOf, v, id, statOk), pathOf(id);
            && r.os == v.os.(fds := r.os.fds) && id !in r.os.fds
            && (forall i :: i != id ==> (i in r.os.fds <==> i in v.os.fds) && (i in v.os.fds ==> r.os.fds[i] == v.os.fds[i]))
            && r.index == (if id in v.os.fds && statOk
                           then v.index[path := Meta(id, v.os.Info(v.os.fds[id]).modTime, v.os.Info(v.os.fds[id]).size)]
                           else v.index)
  {
  }

  /** Deleting closes the descriptor and, unless the file cannot be removed, takes the path out of directory and index. */
  lemma DeleteEffect(pathOf: string -> string, v: View, id: string, statOk: bool, stuck: bool)
    ensures var r, path := RemoveView(pathOf, CloseView(pathOf, v, id, statOk), id, stuck), pathOf(id);
            && id !in r.os.fds && r.os.files == v.os.files
            && (path in r.os.names <==> path in v.os.names && stuck)
            && (path in r.index ==> path in v.os.names && stuck)
            && OtherwiseSame(v.os, r.os, path, {}) && OnlyEntry(v.index, r.index, path)
  {
  }
}
