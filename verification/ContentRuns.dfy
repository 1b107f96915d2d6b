/** Whole runs of the content cache: any operations, in any order, with any file-system outcome. */
module ContentRuns {
  import opened ContentEviction
  import opened ContentSpec

  /** The cache's operations, with every outcome the file system may give them. */
  datatype Op =
    | DoOpen(id: string, now: int, openOk: bool, statOk: bool)
    | DoInsert(id: string, len: nat, now: int, outcome: WriteOutcome, statOk: bool)
    | DoInsertStream(id: string, len: nat, now: int, openOk: bool, fdStatOk: bool, truncateOk: bool, copyOk: bool, pathStatOk: bool)
    | DoWriteAt(id: string, off: nat, n: nat, now: int, openOk: bool, fdStatOk: bool, writeOk: bool, pathStatOk: bool)
    | DoWriteThrough(id: string, size: nat, now: int)
    | DoClose(id: string, statOk: bool)
    | DoDelete(id: string, fdStatOk: bool, pathStatOk: bool, statOk: bool, undeletable: bool)
    | DoEvict(stuck: set<string>)
    | DoSetMaxSize(bytes: int)
    | DoCloseAll

  /** `leaked` counts the bytes subtracted from the total although the index never held them. */
  datatype State = State(view: View, total: int, max: int, closed: bool, leaked: nat)

  // ---------------------------------------------------------------------------
  // One operation
  // ---------------------------------------------------------------------------

  ghost predicate ViewStep(pathOf: string -> string, s: State, op: Op, r: View) {
    match op
    case DoOpen(id, now, openOk, statOk) => r == OpenView(pathOf, s.view, id, now, openOk, statOk)
    case DoInsert(id, len, now, outcome, statOk) =>
      r == if s.closed then s.view else InsertView(pathOf, s.view, id, len, now, outcome, statOk)
    case DoInsertStream(id, len, now, openOk, fdStatOk, truncateOk, copyOk, pathStatOk) =>
      r == if s.closed then s.view else StreamView(pathOf, s.view, id, len, now, openOk, fdStatOk, truncateOk, copyOk, pathStatOk)
    case DoWriteAt(id, off, n, now, openOk, fdStatOk, writeOk, pathStatOk) =>
      r == if s.closed then s.view else WriteAtView(pathOf, s.view, id, off, n, now, openOk, fdStatOk, writeOk, pathStatOk)
    case DoWriteThrough(id, size, now) => r == FdWriteView(s.view, id, size, now)
    case DoClose(id, statOk) => r == CloseView(pathOf, s.view, id, statOk)
    case DoDelete(id, _, _, statOk, undeletable) =>
      r == if s.closed then s.view else RemoveView(pathOf, CloseView(pathOf, s.view, id, statOk), id, undeletable)
    case DoEvict(stuck) =>
      exists order :: IsWalkOrder(order, s.view.index) &&
        r == Evicted(s.view, Victims(pathOf, s.view, stuck, order, s.total, s.max))
    case DoSetMaxSize(_) => r == s.view
    case DoCloseAll => r == CloseAllView(s.view)
  }

  /** Bytes that one operation leaks: the size of a file it removes from disk without finding it in the index. */
  function Leak(pathOf: string -> string, s: State, op: Op): nat {
    if !op.DoDelete? || s.closed then 0
    else
      var path, shut := pathOf(op.id), CloseView(pathOf, s.view, op.id, op.statOk);
      if path in shut.os.names && !op.undeletable && path !in shut.index
      then s.view.os.Size(op.id, path, op.fdStatOk, op.pathStatOk)
      else 0
  }

  ghost predicate OpStep(pathOf: string -> string, s: State, op: Op, r: State) {
    && r.max == (if op.DoSetMaxSize? then op.bytes else s.max)
    && r.closed == (s.closed || op.DoCloseAll?)
    && r.leaked == s.leaked + Leak(pathOf, s, op)
    && r.total == Total(r.view.index) - r.leaked
    && ViewStep(pathOf, s, op, r.view)
  }

  // ---------------------------------------------------------------------------
  // Index and directory
  // ---------------------------------------------------------------------------

  ghost predicate Agree(pathOf: string -> string, s: State) {
    Consistent(pathOf, s.view.os, s.view.index)
  }

  predicate OpenKeeps(pathOf: string -> string, v: View, id: string, openOk: bool, statOk: bool) {
    id in v.os.fds || !openOk || statOk || pathOf(id) in v.index
  }

  predicate CloseKeeps(pathOf: string -> string, v: View, id: string, statOk: bool) {
    var path := pathOf(id);
    id !in v.os.fds || statOk || OpenPath(pathOf, v.os.Unbind(id), path) ||
    (path in v.index && v.index[path].Info() == v.os.Stat(path))
  }

  /** What has to hold before an operation for index and directory to agree after it. */
  predicate Keeps(pathOf: string -> string, s: State, op: Op) {
    match op
    case DoOpen(id, _, openOk, statOk) => OpenKeeps(pathOf, s.view, id, openOk, statOk)
    case DoInsert(id, len, now, outcome, statOk) =>
      s.closed || outcome.NotOpened? || (outcome.Written? && statOk) || OpenPath(pathOf, s.view.os, pathOf(id)) ||
      (pathOf(id) in s.view.index && s.view.index[pathOf(id)].Info() == FileInfo(if outcome.Written? then len else outcome.written, now))
    case DoInsertStream(id, _, _, openOk, fdStatOk, _, _, _) => s.closed || OpenKeeps(pathOf, s.view, id, openOk, fdStatOk)
    case DoWriteAt(id, _, _, _, openOk, fdStatOk, _, _) => s.closed || OpenKeeps(pathOf, s.view, id, openOk, fdStatOk)
    case DoClose(id, statOk) => CloseKeeps(pathOf, s.view, id, statOk)
    case DoDelete(id, _, _, statOk, undeletable) =>
      s.closed ||
      if undeletable then CloseKeeps(pathOf, s.view, id, statOk) else !OpenPath(pathOf, s.view.os.Unbind(id), pathOf(id))
    case DoCloseAll => forall p :: p in s.view.index ==> s.view.index[p].Info() == s.view.os.Stat(p)
    case _ => true
  }

  lemma StreamConsistent(pathOf: string -> string, v: View, id: string, copied: nat, now: int,
                         openOk: bool, fdStatOk: bool, truncateOk: bool, copyOk: bool, pathStatOk: bool)
    requires Consistent(pathOf, v.os, v.index)
    ensures var r := StreamView(pathOf, v, id, copied, now, openOk, fdStatOk, truncateOk, copyOk, pathStatOk);
            Consistent(pathOf, r.os, r.index) <==> OpenKeeps(pathOf, v, id, openOk, fdStatOk)
  {
    OpenConsistent(pathOf, v, id, now, openOk, fdStatOk);
    var bound := OpenView(pathOf, v, id, now, openOk, fdStatOk);
    if OpenKeeps(pathOf, v, id, openOk, fdStatOk) {
      hide Consistent, OpenView;
      FdWriteConsistent(pathOf, bound, id, copied, now);
      TrackConsistent(pathOf, FdWriteView(bound, id, copied, now), id, pathStatOk);
    }
  }

  lemma WriteAtConsistent(pathOf: string -> string, v: View, id: string, off: nat, n: nat, now: int,
                          openOk: bool, fdStatOk: bool, writeOk: bool, pathStatOk: bool)
    requires Consistent(pathOf, v.os, v.index)
    ensures var r := WriteAtView(pathOf, v, id, off, n, now, openOk, fdStatOk, writeOk, pathStatOk);
            Consistent(pathOf, r.os, r.index) <==> OpenKeeps(pathOf, v, id, openOk, fdStatOk)
  {
    OpenConsistent(pathOf, v, id, now, openOk, fdStatOk);
    var bound := OpenView(pathOf, v, id, now, openOk, fdStatOk);
    if OpenKeeps(pathOf, v, id, openOk, fdStatOk) {
      hide Consistent, OpenView;
      WrittenAtConsistent(pathOf, bound, id, off, n, now);
      TrackConsistent(pathOf, WrittenAt(bound, id, off, n, now), id, pathStatOk);
    }
  }

  lemma EvictAgrees(pathOf: string -> string, s: State, stuck: set<string>, r: View)
    requires Agree(pathOf, s) && ViewStep(pathOf, s, DoEvict(stuck), r)
    ensures Consistent(pathOf, r.os, r.index)
  {
    var order :| IsWalkOrder(order, s.view.index) &&
      r == Evicted(s.view, Victims(pathOf, s.view, stuck, order, s.total, s.max));
    var gone := Victims(pathOf, s.view, stuck, order, s.total, s.max);
    hide Consistent, IsWalkOrder;
    if s.max > 0 {
      VictimsClosed(pathOf, s.view, stuck, order, s.total, s.max);
    }
    EvictConsistent(pathOf, s.view, gone);
  }

  lemma VictimsClosed(pathOf: string -> string, v: View, stuck: set<string>, order: seq<string>, total: int, max: int)
    requires IsWalkOrder(order, v.index)
    ensures forall p :: p in Victims(pathOf, v, stuck, order, total, max) ==> !OpenPath(pathOf, v.os, p)
  {
    WalkSpares(order, v.index, total, max, Kept(pathOf, v, stuck));
  }

  /** An operation on a cache in agreement with its directory keeps the agreement exactly if `Keeps` holds before it. */
  lemma AgreesIff(pathOf: string -> string, s: State, op: Op, r: State)
    requires Agree(pathOf, s) && OpStep(pathOf, s, op, r)
    ensures Agree(pathOf, r) <==> Keeps(pathOf, s, op)
  {
    hide Consistent, OpenView, InsertView, StreamView, WriteAtView, RemoveView, CloseView, Total, Leak, OpenPath;
    var v := s.view;
    match op
    case DoOpen(id, now, openOk, statOk) => OpenConsistent(pathOf, v, id, now, openOk, statOk);
    case DoInsert(id, len, now, outcome, statOk) => InsertConsistent(pathOf, v, id, len, now, outcome, statOk);
    case DoInsertStream(id, len, now, openOk, fdStatOk, truncateOk, copyOk, pathStatOk) =>
      StreamConsistent(pathOf, v, id, len, now, openOk, fdStatOk, truncateOk, copyOk, pathStatOk);
    case DoWriteAt(id, off, n, now, openOk, fdStatOk, writeOk, pathStatOk) =>
      WriteAtConsistent(pathOf, v, id, off, n, now, openOk, fdStatOk, writeOk, pathStatOk);
    case DoWriteThrough(id, size, now) => FdWriteConsistent(pathOf, v, id, size, now);
    case DoClose(id, statOk) => CloseConsistent(pathOf, v, id, statOk);
    case DoDelete(id, _, _, statOk, undeletable) =>
      DeleteConsistent(pathOf, v, id, statOk, undeletable);
      CloseConsistent(pathOf, v, id, statOk);
    case DoEvict(stuck) => EvictAgrees(pathOf, s, stuck, r.view);
    case DoSetMaxSize(_) =>
    case DoCloseAll => CloseAllConsistent(pathOf, v);
  }

  /** While index and directory agree, nothing leaks. */
  lemma AgreeingNeverLeaks(pathOf: string -> string, s: State, op: Op)
    requires Agree(pathOf, s)
    ensures Leak(pathOf, s, op) == 0
  {
  }

  // ---------------------------------------------------------------------------
  // Runs
  // ---------------------------------------------------------------------------

  /** The states before, between and after the operations. */
  ghost predicate IsRun(pathOf: string -> string, run: seq<State>, ops: seq<Op>) {
    |run| == |ops| + 1 && forall k :: 0 <= k < |ops| ==> OpStep(pathOf, run[k], ops[k], run[k + 1])
  }

  ghost function LeakSum(pathOf: string -> string, run: seq<State>, ops: seq<Op>, n: nat): nat
    requires n <= |ops| < |run|
  {
    if n == 0 then 0 else LeakSum(pathOf, run, ops, n - 1) + Leak(pathOf, run[n - 1], ops[n - 1])
  }

  lemma {:induction false} LeaksAddUp(pathOf: string -> string, run: seq<State>, ops: seq<Op>, n: nat)
    requires IsRun(pathOf, run, ops) && n <= |ops|
    ensures run[n].leaked == run[0].leaked + LeakSum(pathOf, run, ops, n)
    ensures LeakSum(pathOf, run, ops, n) == 0 <==> forall k :: 0 <= k < n ==> Leak(pathOf, run[k], ops[k]) == 0
    decreases n
  {
    hide Leak, ViewStep, Total;
    if n > 0 {
      LeaksAddUp(pathOf, run, ops, n - 1);
      assert OpStep(pathOf, run[n - 1], ops[n - 1], run[n - 1 + 1]);
    }
  }

  /**
   * Over any operations and any faults, the total is the sum of the indexed sizes less what the
   * deletes leaked; so it is that sum exactly if no delete of the run leaked.
   */
  lemma TotalOfRun(pathOf: string -> string, run: seq<State>, ops: seq<Op>)
    requires IsRun(pathOf, run, ops) && run[0].leaked == 0 && run[0].total == Total(run[0].view.index)
    ensures var last := run[|ops|];
            && last.total == Total(last.view.index) - LeakSum(pathOf, run, ops, |ops|)
            && (last.total == Total(last.view.index) <==> forall k :: 0 <= k < |ops| ==> Leak(pathOf, run[k], ops[k]) == 0)
  {
    hide Leak, ViewStep, Total;
    LeaksAddUp(pathOf, run, ops, |ops|);
    if |ops| > 0 {
      var k := |ops| - 1;
      assert OpStep(pathOf, run[k], ops[k], run[k + 1]);
    }
  }

  /** Index and directory agree in every state of a run exactly if every operation finds its condition met. */
  lemma {:induction false} RunAgreesIff(pathOf: string -> string, run: seq<State>, ops: seq<Op>, n: nat)
    requires IsRun(pathOf, run, ops) && Agree(pathOf, run[0]) && n <= |ops|
    ensures (forall k :: 0 <= k <= n ==> Agree(pathOf, run[k])) <==> (forall k :: 0 <= k < n ==> Keeps(pathOf, run[k], ops[k]))
    decreases n
  {
    hide Agree, Keeps, OpStep;
    if n > 0 {
      RunAgreesIff(pathOf, run, ops, n - 1);
      assert OpStep(pathOf, run[n - 1], ops[n - 1], run[n - 1 + 1]);
      if Agree(pathOf, run[n - 1]) {
        AgreesIff(pathOf, run[n - 1], ops[n - 1], run[n]);
      }
      if forall k :: 0 <= k < n ==> Keeps(pathOf, run[k], ops[k]) {
        assert Agree(pathOf, run[n - 1]) && Keeps(pathOf, run[n - 1], ops[n - 1]);
      }
    }
  }

  /** In such a run nothing leaks, and whenever nothing is open the total is the usage on disk. */
  lemma AgreeingRun(pathOf: string -> string, run: seq<State>, ops: seq<Op>)
    requires IsRun(pathOf, run, ops) && Agree(pathOf, run[0])
    requires run[0].leaked == 0 && run[0].total == Total(run[0].view.index)
    requires forall k :: 0 <= k < |ops| ==> Keeps(pathOf, run[k], ops[k])
    ensures var last := run[|ops|];
            && Agree(pathOf, last) && last.leaked == 0 && last.total == Total(last.view.index)
            && (last.view.os.fds == map[] ==> last.total == last.view.os.Usage())
  {
    RunAgreesIff(pathOf, run, ops, |ops|);
    hide Keeps, ViewStep, Leak, Total, Consistent;
    forall k | 0 <= k < |ops|
      ensures Leak(pathOf, run[k], ops[k]) == 0
    {
      AgreeingNeverLeaks(pathOf, run[k], ops[k]);
    }
    LeaksAddUp(pathOf, run, ops, |ops|);
    TotalOfRun(pathOf, run, ops);
    var last := run[|ops|];
    if last.view.os.fds == map[] {
      TotalIsUsage(pathOf, last.view.os, last.view.index);
    }
  }

  // ---------------------------------------------------------------------------
  // A condition on the operations alone
  // ---------------------------------------------------------------------------

  /** All metadata can be read, a one-shot write is not cut short, and the cache is not shut down. */
  predicate Clean(op: Op) {
    match op
    case DoOpen(_, _, _, statOk) => statOk
    case DoInsert(_, _, _, outcome, statOk) => statOk && !outcome.Partial?
    case DoInsertStream(_, _, _, _, fdStatOk, _, _, _) => fdStatOk
    case DoWriteAt(_, _, _, _, _, fdStatOk, _, _) => fdStatOk
    case DoClose(_, statOk) => statOk
    case DoDelete(_, _, _, statOk, _) => statOk
    case DoCloseAll => false
    case _ => true
  }

  function IdOf(op: Op): set<string> {
    if op.DoEvict? || op.DoSetMaxSize? || op.DoCloseAll? then {} else {op.id}
  }

  /** No two ids of `ids` share a path. */
  ghost predicate Apart(pathOf: string -> string, ids: set<string>) {
    forall i, j :: i in ids && j in ids && pathOf(i) == pathOf(j) ==> i == j
  }

  lemma OpenBinds(pathOf: string -> string, v: View, id: string, now: int, openOk: bool, statOk: bool)
    ensures OpenView(pathOf, v, id, now, openOk, statOk).os.fds.Keys <= v.os.fds.Keys + {id}
  {
  }

  /** The other steps of an operation bind no descriptor. */
  lemma BindsNone(pathOf: string -> string, v: View, id: string, size: nat, off: nat, now: int, w: WriteOutcome, ok: bool)
    ensures FdWriteView(v, id, size, now).os.fds == v.os.fds && WrittenAt(v, id, off, size, now).os.fds == v.os.fds
    ensures TrackView(pathOf, v, id, ok).os.fds == v.os.fds && InsertView(pathOf, v, id, size, now, w, ok).os.fds == v.os.fds
    ensures CloseView(pathOf, v, id, ok).os.fds.Keys <= v.os.fds.Keys && RemoveView(pathOf, v, id, ok).os.fds == v.os.fds
  {
  }

  lemma StreamBinds(pathOf: string -> string, v: View, id: string, copied: nat, now: int,
                    openOk: bool, fdStatOk: bool, truncateOk: bool, copyOk: bool, pathStatOk: bool)
    ensures StreamView(pathOf, v, id, copied, now, openOk, fdStatOk, truncateOk, copyOk, pathStatOk).os.fds.Keys
            <= v.os.fds.Keys + {id}
  {
    hide OpenView, FdWriteView, TrackView;
    OpenBinds(pathOf, v, id, now, openOk, fdStatOk);
    var bound := OpenView(pathOf, v, id, now, openOk, fdStatOk);
    BindsNone(pathOf, bound, id, copied, 0, now, Written, pathStatOk);
    BindsNone(pathOf, FdWriteView(bound, id, copied, now), id, copied, 0, now, Written, pathStatOk);
  }

  lemma WriteAtBinds(pathOf: string -> string, v: View, id: string, off: nat, n: nat, now: int,
                     openOk: bool, fdStatOk: bool, writeOk: bool, pathStatOk: bool)
    ensures WriteAtView(pathOf, v, id, off, n, now, openOk, fdStatOk, writeOk, pathStatOk).os.fds.Keys <= v.os.fds.Keys + {id}
  {
    hide OpenView, WrittenAt, TrackView;
    OpenBinds(pathOf, v, id, now, openOk, fdStatOk);
    var bound := OpenView(pathOf, v, id, now, openOk, fdStatOk);
    BindsNone(pathOf, bound, id, n, off, now, Written, pathStatOk);
    BindsNone(pathOf, WrittenAt(bound, id, off, n, now), id, n, off, now, Written, pathStatOk);
  }

  /** Only the id an operation names can become open. */
  lemma OpensOnly(pathOf: string -> string, s: State, op: Op, r: State)
    requires OpStep(pathOf, s, op, r)
    ensures r.view.os.fds.Keys <= s.view.os.fds.Keys + IdOf(op)
  {
    hide Total, Leak, OpenView, StreamView, WriteAtView, FdWriteView, InsertView, CloseView, RemoveView, Victims, IsWalkOrder;
    var v := s.view;
    match op
    case DoOpen(id, now, openOk, statOk) => OpenBinds(pathOf, v, id, now, openOk, statOk);
    case DoInsert(id, len, now, outcome, statOk) => BindsNone(pathOf, v, id, len, 0, now, outcome, statOk);
    case DoInsertStream(id, len, now, openOk, fdStatOk, truncateOk, copyOk, pathStatOk) =>
      StreamBinds(pathOf, v, id, len, now, openOk, fdStatOk, truncateOk, copyOk, pathStatOk);
    case DoWriteAt(id, off, n, now, openOk, fdStatOk, writeOk, pathStatOk) =>
      WriteAtBinds(pathOf, v, id, off, n, now, openOk, fdStatOk, writeOk, pathStatOk);
    case DoWriteThrough(id, size, now) => BindsNone(pathOf, v, id, size, 0, now, Written, true);
    case DoClose(id, statOk) => BindsNone(pathOf, v, id, 0, 0, 0, Written, statOk);
    case DoDelete(id, _, _, statOk, undeletable) =>
      BindsNone(pathOf, v, id, 0, 0, 0, Written, statOk);
      BindsNone(pathOf, CloseView(pathOf, v, id, statOk), id, 0, 0, 0, Written, undeletable);
    case _ =>
  }

  lemma {:induction false} OpensOnlyNamed(pathOf: string -> string, run: seq<State>, ops: seq<Op>, ids: set<string>, n: nat)
    requires IsRun(pathOf, run, ops) && n <= |ops| && run[0].view.os.fds.Keys <= ids
    requires forall k :: 0 <= k < |ops| ==> IdOf(ops[k]) <= ids
    ensures run[n].view.os.fds.Keys <= ids
    decreases n
  {
    hide OpStep, IdOf;
    if n > 0 {
      OpensOnlyNamed(pathOf, run, ops, ids, n - 1);
      assert OpStep(pathOf, run[n - 1], ops[n - 1], run[n - 1 + 1]);
      OpensOnly(pathOf, run[n - 1], ops[n - 1], run[n]);
    }
  }

  lemma CleanKeeps(pathOf: string -> string, s: State, op: Op, ids: set<string>)
    requires Clean(op) && Apart(pathOf, ids) && s.view.os.fds.Keys <= ids && IdOf(op) <= ids
    ensures Keeps(pathOf, s, op)
  {
    if op.DoDelete? && !op.undeletable {
      assert op.id in ids;
    }
  }

  /** Clean operations on ids that share no path keep every condition met, whatever other ids would share. */
  lemma CleanRunKeeps(pathOf: string -> string, run: seq<State>, ops: seq<Op>, ids: set<string>)
    requires IsRun(pathOf, run, ops) && Apart(pathOf, ids) && run[0].view.os.fds.Keys <= ids
    requires forall k :: 0 <= k < |ops| ==> Clean(ops[k]) && IdOf(ops[k]) <= ids
    ensures forall k :: 0 <= k < |ops| ==> Keeps(pathOf, run[k], ops[k])
  {
    hide OpStep, Keeps, Clean, IdOf, Apart;
    forall k | 0 <= k < |ops|
      ensures Keeps(pathOf, run[k], ops[k])
    {
      OpensOnlyNamed(pathOf, run, ops, ids, k);
      CleanKeeps(pathOf, run[k], ops[k], ids);
    }
  }
}
