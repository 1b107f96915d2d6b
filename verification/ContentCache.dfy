/** The on-disk content cache: every operation on it, its eviction index and its running byte total. */
module ContentCache {
  import opened Wrappers
  import opened ContentEviction
  import opened ContentSpec
  import opened ContentRuns

  class Cache {
    const pathOf: string -> string
    const ix: EvictionIndex
    var totalSize: int
    var maxSize: int
    var closed: bool
    var os: Disk
    /** Bytes subtracted from the total although the index never held them. */
    ghost var leaked: nat

    /** Heap-ordered, every entry at its recorded position, one heap entry per indexed path. */
    ghost predicate Coherent()
      reads ix
    {
      ix.Valid() && ix.Full() && OwnIds(pathOf, ix.meta)
    }

    ghost predicate Valid()
      reads `totalSize, `leaked, ix
    {
      Coherent() && totalSize == Total(ix.meta) - leaked
    }

    ghost function View(): View
      reads `os, ix
    {
      ContentSpec.View(os, ix.meta)
    }

    ghost function S(): State
      reads this, ix
    {
      State(View(), totalSize, maxSize, closed, leaked)
    }

    /** Accounting is right, and index and directory agree. */
    ghost predicate InStep()
      reads this, ix
    {
      Valid() && leaked == 0 && Agree(pathOf, S())
    }

    /** A cache over a directory, with nothing indexed yet. */
    constructor (pathOf: string -> string, os: Disk)
      ensures Valid() && fresh(ix) && this.pathOf == pathOf && maxSize == 0 && !closed && leaked == 0
      ensures View() == ContentSpec.View(os, map[])
    {
      this.pathOf, this.os := pathOf, os;
      ix := new EvictionIndex();
      totalSize, leaked, maxSize, closed := 0, 0, 0, false;
      new;
      assert Total(map[]) == 0;
    }

    /** Hydrates the index from the directory; files whose metadata cannot be read are left out. */
    method InitializeIndex(nameOf: string -> string, listOk: bool, unreadable: set<string>) returns (ok: bool)
      requires Valid() && ix.meta == map[]
      requires forall p :: p in os.names ==> pathOf(nameOf(p)) == p
      modifies `totalSize, ix
      ensures Valid() && ok == listOk
      ensures ix.meta == if listOk then Hydrated(nameOf, os, os.names.Keys - unreadable) else map[]
    {
      if !listOk {
        return false;
      }
      var todo := os.names.Keys;
      ghost var done: set<string> := {};
      HydratedNone(nameOf, os);
      hide *;
      while todo != {}
        invariant Valid() && ix.meta == Hydrated(nameOf, os, done)
        invariant todo <= os.names.Keys && done == os.names.Keys - todo - unreadable
        decreases |todo|
      {
        var p :| p in todo;
        OneLess(os.names.Keys, todo, unreadable, p);
        todo := todo - {p};
        if p !in unreadable {
          IndexFile(nameOf, p, done);
          done := done + {p};
        }
      }
      assert done == os.names.Keys - unreadable;
      return true;
    }

    /** One file of the directory. */
    method IndexFile(nameOf: string -> string, p: string, ghost done: set<string>)
      requires Valid() && ix.meta == Hydrated(nameOf, os, done) && pathOf(nameOf(p)) == p
      modifies `totalSize, ix
      ensures Valid() && ix.meta == Hydrated(nameOf, os, done + {p})
    {
      HydratedOneMore(nameOf, os, done, p);
      hide Cache.Valid, ContentSpec.Hydrated, ContentSpec.Track;
      TrackFileInfo(nameOf(p), p, os.Stat(p));
    }

    method TrackFileInfo(id: string, path: string, info: FileInfo)
      requires Valid() && pathOf(id) == path
      modifies `totalSize, ix
      ensures Valid() && ix.meta == Track(old(ix.meta), id, path, info)
    {
      TotalUpdate(ix.meta, path, Meta(id, info.modTime, info.size));
      totalSize := totalSize + info.size - (if path in ix.meta then ix.meta[path].size else 0);
      ix.Track(path, Meta(id, info.modTime, info.size));
    }

    method TrackFile(id: string, statOk: bool) returns (ok: bool)
      requires Valid()
      modifies `totalSize, ix
      ensures Valid() && View() == TrackView(pathOf, old(View()), id, statOk)
      ensures ok == (statOk && pathOf(id) in os.names)
    {
      var path := pathOf(id);
      ok := statOk && path in os.names;
      if ok {
        TrackFileInfo(id, path, os.Stat(path));
      }
    }

    /** Opens or creates; `openOk` and `statOk` are the outcomes of os.OpenFile and File.Stat. */
    method Open(id: string, now: int, openOk: bool, statOk: bool) returns (ok: bool)
      requires Valid()
      modifies `totalSize, `os, ix
      ensures Valid() && View() == OpenView(pathOf, old(View()), id, now, openOk, statOk)
      ensures ok == (id in os.fds)
    {
      ok := id in os.fds;
      if !ok && openOk {
        var path := pathOf(id);
        ghost var before := os;
        os := os.Create(path, now);
        os := os.Bind(id, os.names[path]);
        ok := path in ix.meta || statOk;
        if !ok {
          os := os.Unbind(id);
          assert os == before.Create(path, now);
        } else if path !in ix.meta {
          TrackFileInfo(id, path, os.Stat(path));
        }
      }
    }

    method Insert(id: string, len: nat, now: int, w: WriteOutcome, statOk: bool) returns (ok: bool)
      requires Valid()
      modifies `totalSize, `os, ix
      ensures Valid() && ok == (!closed && w.Written? && statOk)
      ensures View() == if closed then old(View()) else InsertView(pathOf, old(View()), id, len, now, w, statOk)
    {
      if closed {
        return false;
      }
      os := WriteFile(pathOf, os, id, len, now, w);
      ok := false;
      if w.Written? {
        ok := TrackFile(id, statOk);
      }
    }

    /** A write or a truncation that reaches the file through an open descriptor, unseen by the index. */
    method WriteThrough(id: string, size: nat, now: int)
      requires Valid()
      modifies `os
      ensures Valid() && View() == FdWriteView(old(View()), id, size, now)
    {
      if id in os.fds {
        os := os.Write(os.fds[id], FileInfo(size, now));
      }
    }

    /**
     * `copied` bytes reach the file; `copyOk` says whether the stream ended without error. The metadata
     * is read from the descriptor on opening and from the path at the end.
     */
    method InsertStream(id: string, copied: nat, now: int, openOk: bool, fdStatOk: bool, truncateOk: bool,
                        copyOk: bool, pathStatOk: bool)
      returns (ok: bool)
      requires Valid()
      modifies `totalSize, `os, ix
      ensures Valid()
      ensures View() == if closed then old(View())
                        else StreamView(pathOf, old(View()), id, copied, now, openOk, fdStatOk, truncateOk, copyOk, pathStatOk)
      ensures ok == (!closed && id in os.fds && truncateOk && copyOk && pathStatOk && pathOf(id) in os.names)
    {
      if closed {
        return false;
      }
      ok := Open(id, now, openOk, fdStatOk);
      if !ok || !truncateOk {
        return false;
      }
      WriteThrough(id, copied, now);
      if !copyOk {
        return false;
      }
      ok := TrackFile(id, pathStatOk);
    }

    /** `n` bytes reach the file at `off`; `writeOk` says whether the write ended without error. */
    method WriteAt(id: string, off: nat, n: nat, now: int, openOk: bool, fdStatOk: bool, writeOk: bool, pathStatOk: bool)
      returns (ok: bool)
      requires Valid()
      modifies `totalSize, `os, ix
      ensures Valid()
      ensures View() == if closed then old(View())
                        else WriteAtView(pathOf, old(View()), id, off, n, now, openOk, fdStatOk, writeOk, pathStatOk)
      ensures ok == (!closed && id in os.fds && writeOk && pathStatOk && pathOf(id) in os.names)
    {
      if closed {
        return false;
      }
      ok := Open(id, now, openOk, fdStatOk);
      if !ok {
        return false;
      }
      if n > 0 {
        var had := os.Info(os.fds[id]).size;
        WriteThrough(id, if off + n > had then off + n else had, now);
      }
      if !writeOk {
        return false;
      }
      ok := TrackFile(id, pathStatOk);
    }

    method Close(id: string, statOk: bool) returns (shouldEvict: bool)
      requires Valid()
      modifies `totalSize, `os, ix
      ensures Valid() && View() == CloseView(pathOf, old(View()), id, statOk)
      ensures shouldEvict == (id in old(os).fds && maxSize > 0 && totalSize > maxSize)
    {
      if id !in os.fds {
        return false;
      }
      var f := os.fds[id];
      os := os.Unbind(id);
      if statOk {
        TrackFileInfo(id, pathOf(id), os.Info(f));
      }
      shouldEvict := maxSize > 0 && totalSize > maxSize;
    }

    /** Shutdown: every descriptor is closed and later mutations are refused. */
    method CloseAll()
      requires Valid()
      modifies `os, `closed
      ensures Valid() && closed && View() == CloseAllView(old(View()))
    {
      closed := true;
      os := os.(fds := map[]);
    }

    /**
     * Removes the content of `id`. The total keeps matching the index except in one case: a file that
     * is on disk but not indexed is subtracted although it was never added.
     */
    method Delete(id: string, fdStatOk: bool, pathStatOk: bool, statOk: bool, stuck: bool) returns (ok: bool)
      requires Valid()
      modifies `totalSize, `leaked, `os, ix
      ensures Valid()
      ensures closed ==> !ok && leaked == old(leaked) && View() == old(View())
      ensures !closed ==>
                var shut := CloseView(pathOf, old(View()), id, statOk);
                var leaks := pathOf(id) in shut.os.names && !stuck && pathOf(id) !in shut.index;
                && View() == RemoveView(pathOf, shut, id, stuck)
                && ok == (pathOf(id) in shut.os.names && !stuck)
                && leaked == old(leaked) + (if leaks then old(os).Size(id, pathOf(id), fdStatOk, pathStatOk) else 0)
    {
      if closed {
        return false;
      }
      hide Cache.Valid, ContentSpec.CloseView, ContentSpec.RemoveView;
      var prevSize := os.Size(id, pathOf(id), fdStatOk, pathStatOk);
      var _ := Close(id, statOk);
      ok := Unlink(id, prevSize, stuck);
    }

    /** The part of Delete that follows the closing of the descriptor. */
    method Unlink(id: string, prevSize: nat, stuck: bool) returns (ok: bool)
      requires Valid()
      modifies `totalSize, `leaked, `os, ix
      ensures Valid() && View() == RemoveView(pathOf, old(View()), id, stuck)
      ensures ok == (pathOf(id) in old(os).names && !stuck)
      ensures leaked == old(leaked) + (if ok && pathOf(id) !in old(ix.meta) then prevSize else 0)
    {
      hide EvictionIndex.Valid, EvictionIndex.Full, ContentSpec.Total;
      var path := pathOf(id);
      ok := path in os.names && !stuck;
      if path !in os.names || ok {
        os := os.Unlink(path);
        if path in ix.meta {
          TotalRemove(ix.meta, path);
          totalSize := totalSize - ix.meta[path].size;
        } else {
          assert ix.meta - {path} == ix.meta;
          if ok {
            totalSize, leaked := totalSize - prevSize, leaked + prevSize;
          }
        }
        ix.Forget(path);
      }
    }

    /** Checks the logical id first and then every open descriptor's path. */
    predicate IsOpen(p: string)
      requires p in ix.meta
      reads `os, ix
    {
      (ix.meta[p].id != "" && ix.meta[p].id in os.fds) || OpenPath(pathOf, os, p)
    }

    /** Where an eviction pass stands after `k` steps of the reference walk. */
    ghost predicate MidPass(v0: View, order: seq<string>, k: nat, gone: set<string>, deferred: seq<string>)
      reads `totalSize, `leaked, `os, ix
    {
      && ix.Valid() && totalSize == Total(ix.meta) - leaked && View() == Evicted(v0, gone)
      && Walked(ix.meta, ix.pos, order, k, deferred)
    }

    method EvictStep(stuck: set<string>, ghost v0: View, ghost order: seq<string>, ghost k: nat,
                     ghost gone: set<string>, deferred: seq<string>)
      returns (deferred': seq<string>, ghost gone': set<string>)
      requires IsWalkOrder(order, v0.index) && OwnIds(pathOf, v0.index)
      requires MidPass(v0, order, k, gone, deferred) && |ix.heap| > 0
      modifies `totalSize, `os, ix
      ensures k < |order| && MidPass(v0, order, k + 1, gone', deferred')
      ensures if order[k] in Kept(pathOf, v0, stuck)
              then gone' == gone && totalSize == old(totalSize) && deferred' == deferred + [order[k]]
              else gone' == gone + {order[k]} && totalSize == old(totalSize) - v0.index[order[k]].size && deferred' == deferred
    {
      var p := PopNext(v0, order, k, gone, deferred);
      deferred', gone' := deferred, gone;
      KeptNow(pathOf, v0, gone, p, stuck);
      if IsOpen(p) || (p in os.names && p in stuck) {
        deferred' := deferred + [p];
      } else {
        RemovePopped(p, v0, gone);
        gone' := gone + {p};
      }
    }

    /** Deletes the file of a popped entry and drops the entry; a file already gone counts as deleted. */
    method RemovePopped(p: string, ghost v0: View, ghost gone: set<string>)
      requires ix.Valid() && p in ix.meta && ix.pos[p] == -1
      requires totalSize == Total(ix.meta) - leaked && View() == Evicted(v0, gone)
      modifies `totalSize, `os, ix
      ensures ix.Valid() && ix.meta == old(ix.meta) - {p} && ix.pos == old(ix.pos) - {p}
      ensures totalSize == old(totalSize) - old(ix.meta)[p].size == Total(ix.meta) - leaked
      ensures View() == Evicted(v0, gone + {p})
    {
      TotalRemove(ix.meta, p);
      EvictedOneMore(v0, gone, p);
      totalSize := totalSize - ix.meta[p].size;
      os := os.Unlink(p);
      ix.Drop(p);
    }

    /** heap.Pop yields the next path of the reference walk. */
    method PopNext(ghost v0: View, ghost order: seq<string>, ghost k: nat, ghost gone: set<string>, deferred: seq<string>)
      returns (p: string)
      requires IsWalkOrder(order, v0.index) && MidPass(v0, order, k, gone, deferred) && |ix.heap| > 0
      modifies ix`heap, ix`pos
      ensures ix.Valid() && k < |order| && p == order[k] && p in ix.meta && p !in gone && p in ix.pos && ix.pos[p] == -1
      ensures Walked(ix.meta, ix.pos, order, k + 1, deferred + [p])
      ensures Walked(ix.meta - {p}, ix.pos - {p}, order, k + 1, deferred)
    {
      ghost var before := ix.pos;
      assert ix.heap[0] in ix.meta;
      p := ix.Pop();
      NextInOrder(order, v0.index, k, p);
      WalkedDefer(ix.meta, before, ix.pos, order, k, deferred);
      WalkedDrop(ix.meta, before, ix.pos, order, k, deferred);
    }

    /**
     * The heap-driven eviction removes exactly what the reference walk in `order` removes. The paths in
     * `stuck` are those whose os.Remove fails for a reason other than the file being gone.
     */
    method EvictBySize(stuck: set<string>, ghost order: seq<string>)
      requires Valid() && IsWalkOrder(order, ix.meta)
      modifies `totalSize, `os, ix
      ensures Valid()
      ensures View() == Evicted(old(View()), Victims(pathOf, old(View()), stuck, order, old(totalSize), maxSize))
      ensures EvictsOldest(pathOf, old(View()), stuck, old(ix.meta).Keys - ix.meta.Keys, old(totalSize), maxSize)
      ensures maxSize <= 0 || totalSize <= maxSize || forall p :: p in ix.meta ==> MustStay(pathOf, old(os), stuck, p)
    {
      hide ContentSpec.EvictsOldest, ContentSpec.MustStay;
      hide ContentSpec.Walk, ContentSpec.Kept, ContentSpec.Walked, ContentSpec.OwnIds, ContentSpec.Evicted, ContentSpec.Victims, EvictionIndex.Valid, EvictionIndex.Full, Cache.MidPass;
      ghost var v0, total0 := View(), totalSize;
      PassUnneeded(stuck, order);
      VictimsAreOldest(pathOf, v0, stuck, order, total0, maxSize);
      VictimsGone(pathOf, v0, stuck, order, total0, maxSize);
      if maxSize <= 0 || totalSize <= maxSize || |ix.heap| == 0 {
        return;
      }
      PassStart(order);
      ghost var k, gone;
      var deferred;
      deferred, k, gone := EvictionPass(stuck, order);
      OwnIdsEvicted(pathOf, v0, gone);
      PassEnd(v0, order, k, gone, deferred);
      Reinsert(order, k, deferred);
    }

    /** Where the code returns at once, the reference walk removes nothing either. */
    lemma PassUnneeded(stuck: set<string>, order: seq<string>)
      requires Valid() && IsWalkOrder(order, ix.meta)
      ensures maxSize <= 0 || totalSize <= maxSize || |ix.heap| == 0 ==>
                Evicted(View(), Victims(pathOf, View(), stuck, order, totalSize, maxSize)) == View()
      ensures |ix.heap| == 0 ==> ix.meta == map[]
    {
      NothingEvicted(View());
      WalkedStart(ix, order);
      StillInHeap(ix, order, 0, []);
      WalkEnd(order, 0, ix.meta, totalSize, maxSize, Kept(pathOf, View(), stuck));
      assert order[0..] == order;
      if |ix.heap| == 0 {
        assert order == [];
        assert forall p :: p in ix.meta ==> p in order;
      }
    }

    lemma PassStart(order: seq<string>)
      requires Valid() && IsWalkOrder(order, ix.meta)
      ensures MidPass(View(), order, 0, {}, [])
    {
      NothingEvicted(View());
      WalkedStart(ix, order);
    }

    lemma PassEnd(v0: View, order: seq<string>, k: nat, gone: set<string>, deferred: seq<string>)
      requires MidPass(v0, order, k, gone, deferred)
      ensures ix.Valid() && Walked(ix.meta, ix.pos, order, k, deferred) && totalSize == Total(ix.meta) - leaked
      ensures View() == Evicted(v0, gone)
    {
    }

    /** The pop loop of the eviction, which leaves the skipped entries out of the heap. */
    method EvictionPass(stuck: set<string>, ghost order: seq<string>)
      returns (deferred: seq<string>, ghost k: nat, ghost gone: set<string>)
      requires IsWalkOrder(order, ix.meta) && OwnIds(pathOf, ix.meta) && maxSize > 0
      requires MidPass(View(), order, 0, {}, [])
      modifies `totalSize, `os, ix
      ensures MidPass(old(View()), order, k, gone, deferred)
      ensures gone == Victims(pathOf, old(View()), stuck, order, old(totalSize), maxSize)
      ensures totalSize <= maxSize || forall p :: p in ix.meta ==> MustStay(pathOf, old(os), stuck, p)
    {
      KeptMustStay(pathOf, View(), stuck);
      hide Cache.MidPass, ContentSpec.Kept, ContentSpec.Walk, ContentSpec.MustStay;
      ghost var v0, total0 := View(), totalSize;
      ghost var kept := Kept(pathOf, v0, stuck);
      k, gone, deferred := 0, {}, [];
      assert order[0..] == order;
      while totalSize > maxSize && |ix.heap| > 0
        invariant MidPass(v0, order, k, gone, deferred) && k <= |order|
        invariant forall p :: p in deferred ==> p in kept
        invariant Walk(order, v0.index, total0, maxSize, kept) == gone + Walk(order[k..], v0.index, totalSize, maxSize, kept)
        decreases |order| - k
      {
        WalkStep(order, k, v0.index, totalSize, maxSize, kept, gone);
        deferred, gone := EvictStep(stuck, v0, order, k, gone, deferred);
        k := k + 1;
      }
      WalkEnd(order, k, v0.index, totalSize, maxSize, kept);
      if totalSize > maxSize {
        PassExhausted(v0, order, k, gone, deferred);
      }
    }

    lemma PassExhausted(v0: View, order: seq<string>, k: nat, gone: set<string>, deferred: seq<string>)
      requires MidPass(v0, order, k, gone, deferred) && |ix.heap| == 0
      ensures k == |order| && forall p :: p in ix.meta ==> p in deferred
    {
      WalkedOut(ix, order, k, deferred);
    }

    /** Pushes the entries set aside during a pass back into the heap. */
    method Reinsert(ghost order: seq<string>, ghost k: nat, deferred: seq<string>)
      requires ix.Valid() && Walked(ix.meta, ix.pos, order, k, deferred)
      modifies ix`heap, ix`pos
      ensures ix.Valid() && ix.Full()
    {
      for i := 0 to |deferred|
        invariant ix.Valid()
        invariant forall p :: p in ix.meta ==> (ix.pos[p] == -1 <==> p in deferred[i..])
      {
        assert deferred[i..] == [deferred[i]] + deferred[i + 1..];
        ix.Push(deferred[i]);
      }
    }

    /**
     * Walks the directory and adds up the real sizes of the files whose metadata can be read; if the
     * directory cannot be listed, falls back to the tracked total.
     */
    method TotalDiskUsage(listOk: bool, unreadable: set<string>) returns (total: int)
      ensures total == if listOk then Sum(os.Readable(unreadable)) else totalSize
      ensures listOk && unreadable == {} ==> total == os.Usage()
    {
      if !listOk {
        return totalSize;
      }
      total := 0;
      var sizes := os.Readable(unreadable);
      while sizes != map[]
        invariant total + Sum(sizes) == Sum(os.Readable(unreadable))
        decreases |sizes|
      {
        var p :| p in sizes;
        SumRemove(sizes, p);
        total := total + sizes[p];
        sizes := sizes - {p};
      }
    }

    lemma TotalNow()
      requires Valid()
      ensures totalSize == Total(View().index) - leaked
    {
    }

    /** An eviction pass; the walk order it follows exists for every index. */
    method Evict(stuck: set<string>)
      requires Valid()
      modifies `totalSize, `os, ix
      ensures Valid() && ViewStep(pathOf, old(S()), DoEvict(stuck), View())
    {
      ghost var order := WalkOrderExists(ix.meta);
      hide Victims, Evicted, IsWalkOrder, Cache.Valid;
      EvictBySize(stuck, order);
    }

    method SetMaxSize(bytes: int)
      requires Valid()
      modifies `maxSize
      ensures Valid() && S() == old(S()).(max := bytes)
    {
      maxSize := bytes;
    }

    /** One operation with any outcome; the accounting holds after it, and its leak is known exactly. */
    method Apply(op: Op)
      requires Valid()
      modifies `totalSize, `leaked, `maxSize, `closed, `os, ix
      ensures Valid() && OpStep(pathOf, old(S()), op, S())
    {
      hide OpStep, Cache.Valid;
      if op.DoOpen? || op.DoInsert? || op.DoInsertStream? || op.DoWriteAt? || op.DoWriteThrough? {
        ApplyWrite(op);
      } else {
        ApplyOther(op);
      }
    }

    method ApplyWrite(op: Op)
      requires Valid() && (op.DoOpen? || op.DoInsert? || op.DoInsertStream? || op.DoWriteAt? || op.DoWriteThrough?)
      modifies `totalSize, `leaked, `maxSize, `closed, `os, ix
      ensures Valid() && OpStep(pathOf, old(S()), op, S())
    {
      hide OpenView, InsertView, StreamView, WriteAtView, FdWriteView, CloseView, RemoveView, Total, Victims, IsWalkOrder, Cache.Valid;
      match op {
      case DoOpen(id, now, openOk, statOk) =>
        var _ := Open(id, now, openOk, statOk);
      case DoInsert(id, len, now, outcome, statOk) =>
        var _ := Insert(id, len, now, outcome, statOk);
      case DoInsertStream(id, len, now, openOk, fdStatOk, truncateOk, copyOk, pathStatOk) =>
        var _ := InsertStream(id, len, now, openOk, fdStatOk, truncateOk, copyOk, pathStatOk);
      case DoWriteAt(id, off, n, now, openOk, fdStatOk, writeOk, pathStatOk) =>
        var _ := WriteAt(id, off, n, now, openOk, fdStatOk, writeOk, pathStatOk);
      case DoWriteThrough(id, size, now) =>
        WriteThrough(id, size, now);
      }
      TotalNow();
    }

    method ApplyOther(op: Op)
      requires Valid() && !(op.DoOpen? || op.DoInsert? || op.DoInsertStream? || op.DoWriteAt? || op.DoWriteThrough?)
      modifies `totalSize, `leaked, `maxSize, `closed, `os, ix
      ensures Valid() && OpStep(pathOf, old(S()), op, S())
    {
      hide OpenView, InsertView, StreamView, WriteAtView, FdWriteView, CloseView, RemoveView, Total, Victims, IsWalkOrder, Cache.Valid;
      match op {
      case DoClose(id, statOk) =>
        var _ := Close(id, statOk);
      case DoDelete(id, fdStatOk, pathStatOk, statOk, undeletable) =>
        var _ := Delete(id, fdStatOk, pathStatOk, statOk, undeletable);
      case DoEvict(stuck) =>
        Evict(stuck);
      case DoSetMaxSize(bytes) =>
        SetMaxSize(bytes);
      case DoCloseAll =>
        CloseAll();
      }
      TotalNow();
    }

    /**
     * Over any sequence of operations and any file-system faults, the index stays coherent and the
     * total is the sum of the indexed sizes less exactly what the deletes of the run leaked. If every
     * operation finds its condition met, nothing leaks, index and directory agree, and whenever
     * nothing is open the total is the usage on disk.
     */
    method Run(ops: seq<Op>) returns (ghost run: seq<State>)
      requires Valid()
      modifies `totalSize, `leaked, `maxSize, `closed, `os, ix
      ensures Valid() && IsRun(pathOf, run, ops) && run[0] == old(S()) && run[|ops|] == S()
      ensures totalSize == Total(ix.meta) - old(leaked) - LeakSum(pathOf, run, ops, |ops|)
      ensures old(leaked) == 0 ==>
                (totalSize == Total(ix.meta) <==> forall k :: 0 <= k < |ops| ==> Leak(pathOf, run[k], ops[k]) == 0)
      ensures old(InStep()) && (forall k :: 0 <= k < |ops| ==> Keeps(pathOf, run[k], ops[k])) ==>
                InStep() && (os.fds == map[] ==> totalSize == os.Usage())
    {
      hide OpStep, Keeps, Leak, Agree, Total, LeakSum;
      ghost var s := S();
      run := [S()];
      for i := 0 to |ops|
        invariant Valid() && |run| == i + 1 && run[0] == s && run[i] == S()
        invariant forall k :: 0 <= k < i ==> OpStep(pathOf, run[k], ops[k], run[k + 1])
      {
        Apply(ops[i]);
        run := run + [S()];
      }
      LeaksAddUp(pathOf, run, ops, |ops|);
      if s.leaked == 0 && Agree(pathOf, s) && forall k :: 0 <= k < |ops| ==> Keeps(pathOf, run[k], ops[k]) {
        AgreeingRun(pathOf, run, ops);
      }
    }
  }

  /**
   * NewContentCache: an error if the directory cannot be made or listed, else a cache with exactly its
   * readable files indexed and summed, in agreement with it if all are readable and nothing is open.
   */
  method NewContentCache(pathOf: string -> string, nameOf: string -> string, os: Disk, makeOk: bool, listOk: bool, unreadable: set<string>)
    returns (r: Option<Cache>)
    requires forall p :: p in os.names ==> pathOf(nameOf(p)) == p
    ensures r.Some? <==> makeOk && listOk
    ensures r.Some? ==>
              var c := r.value;
              && fresh(c) && fresh(c.ix) && c.Valid() && c.pathOf == pathOf && c.maxSize == 0 && !c.closed && c.leaked == 0
              && c.View() == View(os, Hydrated(nameOf, os, os.names.Keys - unreadable))
              && (os.Ok() && os.fds == map[] && unreadable !! os.names.Keys ==> c.InStep())
  {
    if !makeOk {
      return None;
    }
    var c := new Cache(pathOf, os);
    var ok := c.InitializeIndex(nameOf, listOk, unreadable);
    if !ok {
      return None;
    }
    if os.Ok() && os.fds == map[] && unreadable !! os.names.Keys {
      HydratedConsistent(pathOf, nameOf, os, unreadable);
    }
    return Some(c);
  }

  /** A write that fails after `n` bytes, then a delete: the tracked total ends up at `-n`. */
  method FailedInsertThenDelete(id: string, len: nat, n: nat, now: int) returns (c: Cache)
    ensures fresh(c) && c.os.names == map[] && c.ix.meta == map[] && c.totalSize + n == 0
  {
    c := new Cache(p => p, Disk(map[], map[], map[], 0));
    assert c.ix.meta == map[];
    var _ := c.Insert(id, len, now, Partial(n), true);
    var _ := c.Delete(id, true, true, true, false);
    assert c.os.names == map[] && c.ix.meta == map[];
    assert Total(map[]) == 0;
  }

  /** A write through a descriptor, then a shutdown: nothing is open, and the total is `n` bytes short. */
  method ShutdownForgetsWrite(id: string, n: nat, now: int) returns (c: Cache)
    ensures fresh(c) && c.os.fds == map[] && c.totalSize == 0 && c.os.Usage() == n
  {
    c := new Cache(p => p, Disk(map[], map[], map[], 0));
    assert c.ix.meta == map[];
    hide Cache.Valid, ContentSpec.OpenView, ContentSpec.FdWriteView, ContentSpec.Total, ContentSpec.Sum;
    ghost var v0 := c.View();
    var _ := c.Open(id, now, true, true);
    c.WriteThrough(id, n, now);
    c.CloseAll();
    ForgottenWrite(c.pathOf, id, n, now);
    assert c.View() == CloseAllView(FdWriteView(OpenView(c.pathOf, v0, id, now, true, true), id, n, now));
    c.TotalNow();
  }

  /** The same on values, for any way of laying ids out on paths. */
  lemma ForgottenWrite(pathOf: string -> string, id: string, n: nat, now: int)
    ensures var empty := View(Disk(map[], map[], map[], 0), map[]);
            var v := CloseAllView(FdWriteView(OpenView(pathOf, empty, id, now, true, true), id, n, now));
            v.os.fds == map[] && Total(v.index) == 0 && v.os.Usage() == n
  {
    var empty := View(Disk(map[], map[], map[], 0), map[]);
    var v := CloseAllView(FdWriteView(OpenView(pathOf, empty, id, now, true, true), id, n, now));
    SumOne(pathOf(id), 0);
    SumOne(pathOf(id), n);
    assert Sizes(v.index) == map[pathOf(id) := 0];
    assert v.os.Readable({}) == map[pathOf(id) := n];
  }

  lemma SumOne(p: string, size: nat)
    ensures Sum(map[p := size]) == size
  {
    SumRemove(map[p := size], p);
    assert map[p := size] - {p} == map[];
  }
}
