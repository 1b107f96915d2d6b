/** Dirty tracking and batched persistence, with mutations falling anywhere between the batches. */
module Persistence {

  type Id = string

  const BATCH := 500

  /** The persisted form of an inode. An empty `parent` means no parent. */
  datatype Record = Record(listed: bool, parent: Id, data: int)

  /** Only inodes of the browsed tree are ever written. */
  predicate InTree(r: Record) {
    r.listed || r.parent != ""
  }

  /**
   * `owed` holds the live ids marked dirty since a committed batch last took them up, `quiet` those
   * whose record changed on one side without a mark: in memory by a prefetch, an access or an
   * eviction, or on disk by a tombstone that outlived the removal it was for. `unread` holds the ids
   * whose record could not be parsed when the cache was loaded and that no batch has taken up since.
   */
  datatype State = State(mem: map<Id, Record>, disk: map<Id, Record>, dirty: set<Id>, deleted: set<Id>,
                         owed: set<Id>, quiet: set<Id>, unread: set<Id>)

  /** Marking keeps the two sets mutually exclusive. */
  function MarkDirty(s: State, id: Id): State {
    s.(dirty := s.dirty + {id}, deleted := s.deleted - {id})
  }

  function MarkDeleted(s: State, id: Id): State {
    s.(deleted := s.deleted + {id}, dirty := s.dirty - {id})
  }

  /** What a mutator of the cache does to memory and to the sets, as one atomic step. */
  datatype Mutation =
    | Store(id: Id, record: Record)
    | StoreQuietly(id: Id, record: Record)
    | Mark(id: Id)
    | Remove(id: Id)
    | Rekey(oldId: Id, newId: Id)

  function Mutate(s: State, m: Mutation): State {
    match m
    case Store(id, record) =>
      MarkDirty(s.(mem := s.mem[id := record], owed := s.owed + {id}), id)
    case StoreQuietly(id, record) =>
      s.(mem := s.mem[id := record], quiet := s.quiet + {id})
    case Mark(id) =>
      MarkDirty(s.(owed := if id in s.mem then s.owed + {id} else s.owed), id)
    case Remove(id) =>
      if id in s.mem then MarkDeleted(s.(mem := s.mem - {id}, owed := s.owed - {id}), id) else s
    case Rekey(oldId, newId) =>
      if oldId !in s.mem then s
      else
        var moved := s.(mem := s.mem[newId := s.mem[oldId]] - {oldId}, owed := s.owed + {newId} - {oldId});
        MarkDirty(if oldId != newId then MarkDeleted(moved, oldId) else moved, newId)
  }

  // ---------------------------------------------------------------------------
  // Batches
  // ---------------------------------------------------------------------------

  /** The disk after a committed batch of dirty ids. */
  function Written(mem: map<Id, Record>, disk: map<Id, Record>, ids: set<Id>): map<Id, Record> {
    map id | id in disk.Keys + ids && (if id in ids then id in mem && (InTree(mem[id]) || id in disk) else id in disk) ::
      if id in ids && InTree(mem[id]) then mem[id] else disk[id]
  }

  function CommitDirty(s: State, ids: set<Id>): State {
    s.(disk := Written(s.mem, s.disk, ids), owed := s.owed - ids, quiet := s.quiet - ids, unread := s.unread - ids)
  }

  /** A committed batch writes its live tree inodes, deletes its dead ids, and leaves everything else as it was. */
  lemma BatchEffect(mem: map<Id, Record>, disk: map<Id, Record>, ids: set<Id>, id: Id)
    ensures var r := Written(mem, disk, ids);
            && (id in ids && id !in mem ==> id !in r)
            && (id in ids && id in mem && (mem[id].listed || mem[id].parent != "") ==> id in r && r[id] == mem[id])
            && (id !in ids || (id in mem && !mem[id].listed && mem[id].parent == "") ==>
                  (id in r <==> id in disk) && (id in disk ==> r[id] == disk[id]))
  {
  }

  /** What each mutation leaves in memory and in the sets, for every id. */
  lemma MutateEffect(s: State, m: Mutation, x: Id)
    ensures var r := Mutate(s, m);
            match m
            case Store(id, record) =>
              && r.mem == s.mem[id := record] && id in r.dirty && id !in r.deleted && SameMarks(s, r, {id}, x)
            case StoreQuietly(id, record) => r.mem == s.mem[id := record] && SameMarks(s, r, {}, x)
            case Mark(id) => r.mem == s.mem && id in r.dirty && id !in r.deleted && SameMarks(s, r, {id}, x)
            case Remove(id) =>
              && id !in r.mem && r.mem == s.mem - {id} && SameMarks(s, r, {id}, x)
              && (id in s.mem ==> id in r.deleted && id !in r.dirty) && (id !in s.mem ==> r == s)
            case Rekey(oldId, newId) =>
              if oldId !in s.mem then r == s
              else
                && r.mem == s.mem[newId := s.mem[oldId]] - {oldId} && SameMarks(s, r, {oldId, newId}, x)
                && newId in r.dirty && newId !in r.deleted && (oldId != newId ==> oldId in r.deleted && oldId !in r.dirty)
    ensures Mutate(s, m).disk == s.disk
  {
    if m.Remove? && m.id !in s.mem {
      assert s.mem - {m.id} == s.mem;
    }
  }

  /** No mark of an id other than those of `ids` has changed. */
  predicate SameMarks(s: State, r: State, ids: set<Id>, x: Id) {
    x !in ids ==> (x in r.dirty <==> x in s.dirty) && (x in r.deleted <==> x in s.deleted)
  }

  /** A failed batch is marked again. */
  function FailDirty(s: State, ids: set<Id>): State {
    s.(dirty := s.dirty + ids, deleted := s.deleted - ids)
  }

  function CommitDeleted(s: State, ids: set<Id>): State {
    s.(disk := s.disk - ids, quiet := s.quiet + ids * s.mem.Keys, unread := s.unread - ids)
  }

  function FailDeleted(s: State, ids: set<Id>): State {
    s.(deleted := s.deleted + ids, dirty := s.dirty - ids)
  }

  // ---------------------------------------------------------------------------
  // What every step keeps. `dirtyRest` and `deletedRest` are the unprocessed rest of a running pass.
  // ---------------------------------------------------------------------------

  /** Every id on disk but not in memory is still tracked, waits in the rest of the pass, or was never read. */
  ghost predicate NoGhost(s: State, rest: set<Id>) {
    forall id :: id in s.disk && id !in s.mem ==> id in s.dirty || id in s.deleted || id in rest || id in s.unread
  }

  /** A live tree inode that owes nothing and was not changed quietly is on disk as it is in memory. */
  ghost predicate Faithful(s: State) {
    forall id :: id in s.mem && InTree(s.mem[id]) && id !in s.owed && id !in s.quiet ==>
      id in s.disk && s.disk[id] == s.mem[id]
  }

  ghost predicate Inv(s: State, dirtyRest: set<Id>, deletedRest: set<Id>) {
    && s.dirty !! s.deleted && dirtyRest !! deletedRest && s.owed <= s.mem.Keys
    && NoGhost(s, dirtyRest + deletedRest) && Faithful(s)
  }

  /** Every live inode that owes a write is dirty, or waits in the rest of the pass. */
  ghost predicate Tracked(s: State, dirtyRest: set<Id>) {
    forall id :: id in s.owed ==> id in s.dirty || id in dirtyRest
  }

  lemma MutateKeeps(s: State, m: Mutation, dirtyRest: set<Id>, deletedRest: set<Id>)
    requires Inv(s, dirtyRest, deletedRest)
    ensures Inv(Mutate(s, m), dirtyRest, deletedRest)
    ensures Tracked(s, dirtyRest) ==> Tracked(Mutate(s, m), dirtyRest)
  {
  }

  /** The running pass takes over the two sets. */
  lemma SwapKeeps(s: State)
    requires Inv(s, {}, {})
    ensures Inv(s.(dirty := {}, deleted := {}), s.dirty, s.deleted)
    ensures Tracked(s, {}) ==> Tracked(s.(dirty := {}, deleted := {}), s.dirty)
  {
  }

  lemma DirtyBatchKeeps(s: State, ids: set<Id>, dirtyRest: set<Id>, deletedRest: set<Id>, ok: bool)
    requires Inv(s, ids + dirtyRest, deletedRest)
    ensures var r := if ok then CommitDirty(s, ids) else FailDirty(s, ids);
            Inv(r, dirtyRest, deletedRest) && (Tracked(s, ids + dirtyRest) ==> Tracked(r, dirtyRest))
  {
  }

  /** Tombstones: a failed batch loses the dirty mark of exactly the ids re-inserted meanwhile. */
  lemma DeletedBatchKeeps(s: State, ids: set<Id>, deletedRest: set<Id>, ok: bool)
    requires Inv(s, {}, ids + deletedRest)
    ensures var r := if ok then CommitDeleted(s, ids) else FailDeleted(s, ids);
            && Inv(r, {}, deletedRest)
            && (Tracked(s, {}) ==> (Tracked(r, {}) <==> ok || ids !! s.owed))
  {
    if !ok && Tracked(s, {}) {
      var r := FailDeleted(s, ids);
      if id :| id in ids && id in s.owed {
        assert id in r.owed && id !in r.dirty;
      }
    }
  }

  // ---------------------------------------------------------------------------
  // The tombstone batches of a pass
  // ---------------------------------------------------------------------------

  function MutateAll(s: State, ms: seq<Mutation>): State {
    if ms == [] then s else Mutate(MutateAll(s, ms[..|ms| - 1]), ms[|ms| - 1])
  }

  lemma {:induction false} MutateAllTracks(s: State, ms: seq<Mutation>)
    requires Tracked(s, {})
    ensures Tracked(MutateAll(s, ms), {})
    decreases |ms|
  {
    if ms != [] {
      MutateAllTracks(s, ms[..|ms| - 1]);
      MutateTracks(MutateAll(s, ms[..|ms| - 1]), ms[|ms| - 1]);
    }
  }

  lemma MutateTracks(s: State, m: Mutation)
    requires Tracked(s, {})
    ensures Tracked(Mutate(s, m), {})
  {
  }

  /** One batch: the states around it, its ids, and whether it committed. */
  datatype Batch = Batch(before: State, ids: set<Id>, committed: bool, after: State)

  function EndOf(s: State, tombs: seq<Batch>): State {
    if tombs == [] then s else tombs[|tombs| - 1].after
  }

  /** Batch `n`, of tombstones if `dead`, finds what the mutators `env(n)` make of state `s`, and commits or is marked again. */
  ghost predicate BatchStep(dead: bool, s: State, x: Batch, env: nat -> seq<Mutation>, commits: nat -> bool, n: nat) {
    && x.before == MutateAll(s, env(n)) && x.committed == commits(n)
    && x.after == (if dead then if x.committed then CommitDeleted(x.before, x.ids) else FailDeleted(x.before, x.ids)
                   else if x.committed then CommitDirty(x.before, x.ids) else FailDirty(x.before, x.ids))
  }

  /** The batches from `n0` on. */
  ghost predicate BatchRun(dead: bool, s: State, batches: seq<Batch>, env: nat -> seq<Mutation>, commits: nat -> bool, n0: nat) {
    forall k :: 0 <= k < |batches| ==> BatchStep(dead, EndOf(s, batches[..k]), batches[k], env, commits, n0 + k)
  }

  /** A failed batch meets an id that owes a write. */
  ghost predicate Loses(x: Batch) {
    !x.committed && !(x.ids !! x.before.owed)
  }

  lemma OneTombstoneBatch(s: State, x: Batch, env: nat -> seq<Mutation>, commits: nat -> bool, n: nat)
    requires BatchStep(true, s, x, env, commits, n) && Tracked(s, {})
    ensures Tracked(x.after, {}) <==> !Loses(x)
  {
    MutateAllTracks(s, env(n));
    hide MutateAll;
    if Loses(x) {
      var id :| id in x.ids && id in x.before.owed;
      assert id in x.after.owed && id !in x.after.dirty;
    }
  }

  /** Over the tombstone batches of a pass, with any mutators in between, no mark is lost exactly if no batch loses one. */
  lemma {:induction false} TombsTrackIff(s: State, tombs: seq<Batch>, env: nat -> seq<Mutation>, commits: nat -> bool, n0: nat, m: nat)
    requires BatchRun(true, s, tombs, env, commits, n0) && Tracked(s, {}) && m <= |tombs|
    ensures (forall k :: 0 <= k < m ==> Tracked(tombs[k].after, {})) <==> (forall k :: 0 <= k < m ==> !Loses(tombs[k]))
    decreases m
  {
    hide Tracked, Loses, BatchStep;
    if m > 0 {
      TombsTrackIff(s, tombs, env, commits, n0, m - 1);
      var k := m - 1;
      assert k > 0 ==> EndOf(s, tombs[..k]) == tombs[k - 1].after;
      assert BatchStep(true, EndOf(s, tombs[..k]), tombs[k], env, commits, n0 + k);
      if Tracked(EndOf(s, tombs[..k]), {}) {
        OneTombstoneBatch(EndOf(s, tombs[..k]), tombs[k], env, commits, n0 + k);
      }
    }
  }

  // ---------------------------------------------------------------------------
  // The pass
  // ---------------------------------------------------------------------------

  ghost function ToSet(q: seq<Id>): set<Id> {
    set id | id in q
  }

  class InodeStore {
    var mem: map<Id, Record>
    var disk: map<Id, Record>
    var dirty: set<Id>
    var deleted: set<Id>
    ghost var owed: set<Id>
    ghost var quiet: set<Id>
    ghost var unread: set<Id>

    ghost function S(): State
      reads this
    {
      State(mem, disk, dirty, deleted, owed, quiet, unread)
    }

    /** A cache freshly loaded from disk; records that cannot be parsed are skipped and stay on disk. */
    constructor (disk: map<Id, Record>, unparsable: set<Id>)
      ensures Inv(S(), {}, {}) && Tracked(S(), {}) && this.disk == disk && dirty == deleted == quiet == {}
      ensures mem == disk - unparsable && unread == disk.Keys * unparsable
    {
      mem, this.disk, dirty, deleted := disk - unparsable, disk, {}, {};
      owed, quiet, unread := {}, {}, disk.Keys * unparsable;
    }

    method Mark(id: Id, dead: bool)
      modifies `dirty, `deleted
      ensures S() == if dead then MarkDeleted(old(S()), id) else MarkDirty(old(S()), id)
    {
      if dead {
        deleted, dirty := deleted + {id}, dirty - {id};
      } else {
        dirty, deleted := dirty + {id}, deleted - {id};
      }
    }

    method Apply(m: Mutation)
      modifies this
      ensures S() == Mutate(old(S()), m)
    {
      match m
      case Store(id, record) =>
        mem, owed := mem[id := record], owed + {id};
        Mark(id, false);
      case StoreQuietly(id, record) =>
        mem, quiet := mem[id := record], quiet + {id};
      case Mark(id) =>
        owed := if id in mem then owed + {id} else owed;
        Mark(id, false);
      case Remove(id) =>
        if id in mem {
          mem, owed := mem - {id}, owed - {id};
          Mark(id, true);
        }
      case Rekey(oldId, newId) =>
        if oldId in mem {
          mem, owed := mem[newId := mem[oldId]] - {oldId}, owed + {newId} - {oldId};
          if oldId != newId {
            Mark(oldId, true);
          }
          Mark(newId, false);
        }
    }

    /** Mutators running while the pass is between two batches. */
    method Interleave(ms: seq<Mutation>, ghost dirtyRest: set<Id>, ghost deletedRest: set<Id>)
      requires Inv(S(), dirtyRest, deletedRest)
      modifies this
      ensures Inv(S(), dirtyRest, deletedRest)
      ensures old(Tracked(S(), dirtyRest)) ==> Tracked(S(), dirtyRest)
      ensures S() == MutateAll(old(S()), ms) && (ms == [] ==> S() == old(S()))
    {
      hide Inv, Tracked, Mutate;
      for i := 0 to |ms|
        invariant Inv(S(), dirtyRest, deletedRest)
        invariant old(Tracked(S(), dirtyRest)) ==> Tracked(S(), dirtyRest)
        invariant S() == MutateAll(old(S()), ms[..i])
      {
        MutateKeeps(S(), ms[i], dirtyRest, deletedRest);
        Apply(ms[i]);
        assert ms[..i + 1][..i] == ms[..i];
      }
      assert ms[..|ms|] == ms;
    }

    /** The keys of a set in some order; the batching does not depend on which. */
    method Keys(ids: set<Id>) returns (q: seq<Id>)
      ensures ToSet(q) == ids && |q| == |ids|
    {
      q := [];
      var rest := ids;
      while rest != {}
        invariant ToSet(q) == ids - rest && rest <= ids && |q| + |rest| == |ids|
        decreases |rest|
      {
        var id :| id in rest;
        assert ToSet(q + [id]) == ToSet(q) + {id};
        q, rest := q + [id], rest - {id};
      }
    }

    /** The transaction body over dirty ids: each one is written, dropped or skipped. */
    method Transact(batch: seq<Id>) returns (tx: map<Id, Record>)
      ensures tx == Written(mem, disk, ToSet(batch))
    {
      tx := disk;
      NothingCommitted(S());
      hide Written;
      for j := 0 to |batch|
        invariant tx == Written(mem, disk, ToSet(batch[..j]))
      {
        var id := batch[j];
        SplitSets(batch, j, j + 1);
        assert ToSet(batch[j..j + 1]) == {id};
        WrittenOneMore(mem, disk, ToSet(batch[..j]), id);
        if id !in mem {
          tx := tx - {id};
        } else if InTree(mem[id]) {
          tx := tx[id := mem[id]];
        }
      }
      assert batch[..|batch|] == batch;
    }

    /** One transaction over dirty ids, committed or rolled back. */
    method DirtyBatch(batch: seq<Id>, commit: bool)
      modifies `disk, `dirty, `deleted, `owed, `quiet, `unread
      ensures S() == if commit then CommitDirty(old(S()), ToSet(batch)) else FailDirty(old(S()), ToSet(batch))
    {
      if commit {
        disk := Transact(batch);
        owed, quiet, unread := owed - ToSet(batch), quiet - ToSet(batch), unread - ToSet(batch);
      } else {
        for j := 0 to |batch|
          invariant disk == old(disk) && owed == old(owed) && quiet == old(quiet) && unread == old(unread)
          invariant dirty == old(dirty) + ToSet(batch[..j]) && deleted == old(deleted) - ToSet(batch[..j])
        {
          assert batch[..j + 1] == batch[..j] + [batch[j]];
          Mark(batch[j], false);
        }
        assert batch[..|batch|] == batch;
      }
    }

    method DeletedBatch(batch: seq<Id>, commit: bool)
      modifies `disk, `dirty, `deleted, `quiet, `unread
      ensures S() == if commit then CommitDeleted(old(S()), ToSet(batch)) else FailDeleted(old(S()), ToSet(batch))
    {
      if commit {
        var tx := disk;
        for j := 0 to |batch|
          invariant tx == disk - ToSet(batch[..j])
        {
          assert batch[..j + 1] == batch[..j] + [batch[j]];
          tx := tx - {batch[j]};
        }
        assert batch[..|batch|] == batch;
        disk, quiet, unread := tx, quiet + ToSet(batch) * mem.Keys, unread - ToSet(batch);
      } else {
        for j := 0 to |batch|
          invariant disk == old(disk) && quiet == old(quiet) && unread == old(unread)
          invariant deleted == old(deleted) + ToSet(batch[..j]) && dirty == old(dirty) - ToSet(batch[..j])
        {
          assert batch[..j + 1] == batch[..j] + [batch[j]];
          Mark(batch[j], true);
        }
        assert batch[..|batch|] == batch;
      }
    }

    /** Writes the dirty ids batch by batch; `env(n)` runs before batch `n`, which commits if `commits(n)`. */
    method PersistDirty(ids: seq<Id>, env: nat -> seq<Mutation>, commits: nat -> bool, ghost deletedRest: set<Id>)
      returns (n: nat, ok: bool, ghost batches: seq<Batch>)
      requires Inv(S(), ToSet(ids), deletedRest)
      modifies this
      ensures Inv(S(), {}, deletedRest) && n == Batches(|ids|) && (ok <==> Committed(commits, 0, n))
      ensures BatchRun(false, old(S()), batches, env, commits, 0) && S() == EndOf(old(S()), batches)
      ensures BatchIds(batches) == ToSet(ids) && |batches| == n
      ensures old(Tracked(S(), ToSet(ids))) ==> Tracked(S(), {})
      ensures Calm(env) && AllCommit(commits) ==> ok && S() == CommitDirty(old(S()), ToSet(ids))
    {
      ghost var s0 := S();
      n, ok, batches := 0, true, [];
      var i := 0;
      NoneFlushed(ids, env, commits, deletedRest);
      hide Flushed;
      while i < |ids|
        invariant i <= |ids| && n == |batches| && Flushed(s0, ids, env, commits, deletedRest, i, ok, batches)
        decreases |ids| - i
      {
        i, ok, batches := FlushBatch(ids, env, commits, deletedRest, i, ok, s0, batches, n);
        n := n + 1;
      }
      AllFlushed(s0, ids, env, commits, deletedRest, ok, batches);
    }

    /** Where the loop over dirty ids stands after the first `i` ids. */
    ghost predicate Flushed(s0: State, ids: seq<Id>, env: nat -> seq<Mutation>, commits: nat -> bool, deletedRest: set<Id>, i: nat,
                            ok: bool, batches: seq<Batch>)
      reads this
    {
      && i <= |ids| && (i == |batches| * BATCH || (i == |ids| && |batches| == Batches(|ids|)))
      && Inv(S(), ToSet(ids[i..]), deletedRest) && BatchRun(false, s0, batches, env, commits, 0) && S() == EndOf(s0, batches)
      && BatchIds(batches) == ToSet(ids[..i]) && (ok <==> Committed(commits, 0, |batches|))
      && (Tracked(s0, ToSet(ids)) ==> Tracked(S(), ToSet(ids[i..])))
      && (Calm(env) && AllCommit(commits) ==> ok && S() == CommitDirty(s0, ToSet(ids[..i])))
    }

    lemma NoneFlushed(ids: seq<Id>, env: nat -> seq<Mutation>, commits: nat -> bool, deletedRest: set<Id>)
      requires Inv(S(), ToSet(ids), deletedRest)
      ensures Flushed(S(), ids, env, commits, deletedRest, 0, true, [])
    {
      CommittedMore(commits, 0, 0);
      NoBatches(false, S(), env, commits, 0);
      NothingCommitted(S());
      assert ids[0..] == ids && ids[..0] == [];
      hide Inv, Tracked, Committed, CommitDirty, BatchRun;
    }

    lemma AllFlushed(s0: State, ids: seq<Id>, env: nat -> seq<Mutation>, commits: nat -> bool, deletedRest: set<Id>, ok: bool, batches: seq<Batch>)
      requires Flushed(s0, ids, env, commits, deletedRest, |ids|, ok, batches)
      ensures Inv(S(), {}, deletedRest) && BatchRun(false, s0, batches, env, commits, 0) && S() == EndOf(s0, batches)
      ensures BatchIds(batches) == ToSet(ids) && |batches| == Batches(|ids|) && (ok <==> Committed(commits, 0, |batches|))
      ensures Tracked(s0, ToSet(ids)) ==> Tracked(S(), {})
      ensures Calm(env) && AllCommit(commits) ==> ok && S() == CommitDirty(s0, ToSet(ids))
    {
      hide Inv, Tracked, Committed, CommitDirty, BatchRun, Calm, AllCommit;
      assert ids[|ids|..] == [] && ids[..|ids|] == ids;
      assert ToSet([]) == {};
    }

    /** The mutators before one batch of dirty ids, and the batch. */
    method FlushBatch(ids: seq<Id>, env: nat -> seq<Mutation>, commits: nat -> bool, ghost deletedRest: set<Id>, i: nat, ok: bool,
                      ghost s0: State, ghost batches: seq<Batch>, n: nat)
      returns (i': nat, ok': bool, ghost batches': seq<Batch>)
      requires i < |ids| && Flushed(s0, ids, env, commits, deletedRest, i, ok, batches) && n == |batches|
      modifies this
      ensures i < i' <= |ids| && Flushed(s0, ids, env, commits, deletedRest, i', ok', batches') && |batches'| == |batches| + 1
    {
      hide Inv, Tracked, Committed, BatchRun, MutateAll;
      i' := if i + BATCH > |ids| then |ids| else i + BATCH;
      Interleave(env(n), ToSet(ids[i..]), deletedRest);
      ghost var before := S();
      SplitSets(ids, i, i');
      CommitTwice(s0, ToSet(ids[..i]), ToSet(ids[i..i']));
      DirtyBatchKeeps(S(), ToSet(ids[i..i']), ToSet(ids[i'..]), deletedRest, commits(n));
      DirtyBatch(ids[i..i'], commits(n));
      CommittedMore(commits, 0, n);
      ghost var x := Batch(before, ToSet(ids[i..i']), commits(n), S());
      OneMoreBatch(false, s0, batches, env, commits, 0, x);
      LastBatch(s0, batches, x);
      batches' := batches + [x];
      ok' := ok && commits(n);
    }

    /** Removes the tombstoned ids from disk, batch by batch. */
    method PersistDeleted(ids: seq<Id>, env: nat -> seq<Mutation>, commits: nat -> bool, n0: nat)
      returns (ok: bool, ghost tombs: seq<Batch>)
      requires Inv(S(), {}, ToSet(ids))
      modifies this
      ensures Inv(S(), {}, {})
      ensures BatchRun(true, old(S()), tombs, env, commits, n0) && S() == EndOf(old(S()), tombs)
      ensures BatchIds(tombs) == ToSet(ids) && |tombs| == Batches(|ids|) && (ok <==> Committed(commits, n0, n0 + |tombs|))
      ensures CommitFrom(commits, n0) && old(Tracked(S(), {})) ==> Tracked(S(), {})
      ensures Calm(env) && AllCommit(commits) ==> ok && S() == CommitDeleted(old(S()), ToSet(ids))
    {
      ghost var s0 := S();
      ok, tombs := true, [];
      var n, i := n0, 0;
      NoneBuried(ids, env, commits, n0);
      hide Buried;
      while i < |ids|
        invariant i <= |ids| && n == n0 + |tombs| && Buried(s0, ids, env, commits, n0, i, ok, tombs)
        decreases |ids| - i
      {
        i, ok, tombs := BuryBatch(ids, env, commits, n0, i, ok, s0, tombs, n);
        n := n + 1;
      }
      AllBuried(s0, ids, env, commits, n0, ok, tombs);
    }

    /** Where the tombstone loop stands after the first `i` ids. */
    ghost predicate Buried(s0: State, ids: seq<Id>, env: nat -> seq<Mutation>, commits: nat -> bool, n0: nat, i: nat, ok: bool, tombs: seq<Batch>)
      reads this
    {
      && i <= |ids| && (i == |tombs| * BATCH || (i == |ids| && |tombs| == Batches(|ids|)))
      && Inv(S(), {}, ToSet(ids[i..])) && BatchRun(true, s0, tombs, env, commits, n0) && S() == EndOf(s0, tombs)
      && BatchIds(tombs) == ToSet(ids[..i]) && (ok <==> Committed(commits, n0, n0 + |tombs|))
      && (CommitFrom(commits, n0) && Tracked(s0, {}) ==> Tracked(S(), {}))
      && (Calm(env) && AllCommit(commits) ==> ok && S() == CommitDeleted(s0, ToSet(ids[..i])))
    }

    lemma NoneBuried(ids: seq<Id>, env: nat -> seq<Mutation>, commits: nat -> bool, n0: nat)
      requires Inv(S(), {}, ToSet(ids))
      ensures Buried(S(), ids, env, commits, n0, 0, true, [])
    {
      CommittedMore(commits, n0, n0);
      NoBatches(true, S(), env, commits, n0);
      NothingCommitted(S());
      assert ids[0..] == ids && ids[..0] == [];
      hide Inv, Tracked, Committed, CommitDeleted, BatchRun;
    }

    lemma AllBuried(s0: State, ids: seq<Id>, env: nat -> seq<Mutation>, commits: nat -> bool, n0: nat, ok: bool, tombs: seq<Batch>)
      requires Buried(s0, ids, env, commits, n0, |ids|, ok, tombs)
      ensures Inv(S(), {}, {}) && BatchRun(true, s0, tombs, env, commits, n0) && S() == EndOf(s0, tombs)
      ensures BatchIds(tombs) == ToSet(ids) && |tombs| == Batches(|ids|) && (ok <==> Committed(commits, n0, n0 + |tombs|))
      ensures CommitFrom(commits, n0) && Tracked(s0, {}) ==> Tracked(S(), {})
      ensures Calm(env) && AllCommit(commits) ==> ok && S() == CommitDeleted(s0, ToSet(ids))
    {
      hide Inv, Tracked, Committed, CommitDeleted, BatchRun, Calm, AllCommit;
      assert ids[|ids|..] == [] && ids[..|ids|] == ids;
      assert ToSet([]) == {};
    }

    /** The mutators before one tombstone batch, and the batch. */
    method BuryBatch(ids: seq<Id>, env: nat -> seq<Mutation>, commits: nat -> bool, ghost n0: nat, i: nat, ok: bool,
                     ghost s0: State, ghost tombs: seq<Batch>, n: nat)
      returns (i': nat, ok': bool, ghost tombs': seq<Batch>)
      requires i < |ids| && Buried(s0, ids, env, commits, n0, i, ok, tombs) && n == n0 + |tombs|
      modifies this
      ensures i < i' <= |ids| && Buried(s0, ids, env, commits, n0, i', ok', tombs') && |tombs'| == |tombs| + 1
    {
      hide Inv, Tracked, Committed, BatchRun, MutateAll;
      i' := if i + BATCH > |ids| then |ids| else i + BATCH;
      Interleave(env(n), {}, ToSet(ids[i..]));
      ghost var before := S();
      SplitSets(ids, i, i');
      DropTwice(s0, ToSet(ids[..i]), ToSet(ids[i..i']));
      DeletedBatchKeeps(S(), ToSet(ids[i..i']), ToSet(ids[i'..]), commits(n));
      DeletedBatch(ids[i..i'], commits(n));
      CommittedMore(commits, n0, n);
      ghost var x := Batch(before, ToSet(ids[i..i']), commits(n), S());
      OneMoreBatch(true, s0, tombs, env, commits, n0, x);
      LastBatch(s0, tombs, x);
      tombs' := tombs + [x];
      ok' := ok && commits(n);
    }

    /**
     * A whole pass. With any mutators between the batches and any batches failing, no id on disk is
     * ever lost sight of, and no live id that owes a write is either, throughout the pass, exactly if no
     * failed tombstone batch meets one. `writes` and `tombs` are the batches as they ran, one after the
     * other. With nothing in between and every batch committed, disk and memory agree.
     */
    method SerializeDirty(env: nat -> seq<Mutation>, commits: nat -> bool)
      returns (ok: bool, ghost writes: seq<Batch>, ghost tombs: seq<Batch>)
      requires Inv(S(), {}, {})
      modifies this
      ensures Inv(S(), {}, {})
      ensures var start := old(S()).(dirty := {}, deleted := {});
              var mid := EndOf(start, writes);
              && BatchRun(false, start, writes, env, commits, 0) && BatchIds(writes) == old(dirty)
              && BatchRun(true, mid, tombs, env, commits, |writes|) && BatchIds(tombs) == old(deleted) && S() == EndOf(mid, tombs)
              && (old(Tracked(S(), {})) ==> Tracked(mid, {}))
      ensures |writes| == (|old(dirty)| + 499) / 500 && |tombs| == (|old(deleted)| + 499) / 500
      ensures ok <==> Committed(commits, 0, |writes| + |tombs|)
      ensures CommitFrom(commits, |writes|) && old(Tracked(S(), {})) ==> Tracked(S(), {})
      ensures old(Tracked(S(), {})) ==>
                ((forall k :: 0 <= k < |tombs| ==> Tracked(tombs[k].after, {})) <==> (forall k :: 0 <= k < |tombs| ==> !Loses(tombs[k])))
      ensures Calm(env) && AllCommit(commits) ==>
                && ok && mem == old(mem) && dirty == {} && deleted == {}
                && (forall id :: id in disk ==> id in mem || id in old(unread - dirty - deleted))
                && (forall id :: id in old(dirty) && id in mem && InTree(mem[id]) ==> id in disk && disk[id] == mem[id])
      ensures Calm(env) && AllCommit(commits) && old(Tracked(S(), {})) ==>
                forall id :: id in mem && InTree(mem[id]) && id !in old(quiet) && id !in old(deleted) ==>
                  id in disk && disk[id] == mem[id]
    {
      ghost var s := S();
      hide Inv, Tracked, CommitDirty, CommitDeleted, InTree, Calm, AllCommit, CommitFrom, Committed;
      hide BatchRun, EndOf, BatchIds, Loses;
      ok, writes, tombs := PersistBoth(env, commits);
      ghost var mid := EndOf(s.(dirty := {}, deleted := {}), writes);
      if Tracked(mid, {}) {
        TombsTrackIff(mid, tombs, env, commits, |writes|, |tombs|);
      }
      if Calm(env) && AllCommit(commits) {
        PassOutcome(s);
      }
    }

    /** Swaps the two sets out, then persists first the dirty and then the deleted ids. */
    method PersistBoth(env: nat -> seq<Mutation>, commits: nat -> bool)
      returns (ok: bool, ghost writes: seq<Batch>, ghost tombs: seq<Batch>)
      requires Inv(S(), {}, {})
      modifies this
      ensures Inv(S(), {}, {})
      ensures var start := old(S()).(dirty := {}, deleted := {});
              var mid := EndOf(start, writes);
              && BatchRun(false, start, writes, env, commits, 0) && BatchIds(writes) == old(dirty)
              && BatchRun(true, mid, tombs, env, commits, |writes|) && BatchIds(tombs) == old(deleted) && S() == EndOf(mid, tombs)
              && (old(Tracked(S(), {})) ==> Tracked(mid, {}))
      ensures |writes| == (|old(dirty)| + 499) / 500 && |tombs| == (|old(deleted)| + 499) / 500
      ensures ok <==> Committed(commits, 0, |writes| + |tombs|)
      ensures CommitFrom(commits, |writes|) && old(Tracked(S(), {})) ==> Tracked(S(), {})
      ensures Calm(env) && AllCommit(commits) ==>
                ok && S() == CommitDeleted(CommitDirty(old(S()).(dirty := {}, deleted := {}), old(dirty)), old(deleted))
    {
      var dirtyIds := Keys(dirty);
      var deletedIds := Keys(deleted);
      SwapKeeps(S());
      hide Inv, Tracked, CommitDirty, CommitDeleted, Calm, AllCommit, ToSet;
      dirty, deleted := {}, {};
      var n, ok1, ok2;
      hide BatchRun, EndOf, BatchIds, Committed;
      n, ok1, writes := PersistDirty(dirtyIds, env, commits, ToSet(deletedIds));
      ok2, tombs := PersistDeleted(deletedIds, env, commits, n);
      ok := ok1 && ok2;
      CommittedBoth(commits, n, n + |tombs|);
    }
  }

  /** No mutator runs during the pass. */
  ghost predicate Calm(env: nat -> seq<Mutation>) {
    forall n :: env(n) == []
  }

  ghost predicate AllCommit(commits: nat -> bool) {
    forall n :: commits(n)
  }

  /** The batches from `a` up to `b` commit. */
  ghost predicate Committed(commits: nat -> bool, a: nat, b: nat) {
    forall n :: a <= n < b ==> commits(n)
  }

  lemma CommittedBoth(commits: nat -> bool, a: nat, b: nat)
    requires a <= b
    ensures Committed(commits, 0, b) <==> Committed(commits, 0, a) && Committed(commits, a, b)
  {
  }

  lemma CommittedMore(commits: nat -> bool, a: nat, b: nat)
    requires a <= b
    ensures Committed(commits, a, a) && (Committed(commits, a, b + 1) <==> Committed(commits, a, b) && commits(b))
  {
  }

  /** All ids of the batches. */
  ghost function BatchIds(tombs: seq<Batch>): set<Id> {
    if tombs == [] then {} else BatchIds(tombs[..|tombs| - 1]) + tombs[|tombs| - 1].ids
  }

  lemma NoBatches(dead: bool, s: State, env: nat -> seq<Mutation>, commits: nat -> bool, n0: nat)
    ensures BatchRun(dead, s, [], env, commits, n0)
  {
  }

  lemma OneMoreBatch(dead: bool, s: State, batches: seq<Batch>, env: nat -> seq<Mutation>, commits: nat -> bool, n0: nat, x: Batch)
    requires BatchRun(dead, s, batches, env, commits, n0)
    requires BatchStep(dead, EndOf(s, batches), x, env, commits, n0 + |batches|)
    ensures BatchRun(dead, s, batches + [x], env, commits, n0)
  {
    hide BatchStep, EndOf;
    var more := batches + [x];
    forall k | 0 <= k < |more|
      ensures BatchStep(dead, EndOf(s, more[..k]), more[k], env, commits, n0 + k)
    {
      if k < |batches| {
        assert more[..k] == batches[..k] && more[k] == batches[k];
      } else {
        assert more[..k] == batches;
      }
    }
  }

  lemma LastBatch(s: State, tombs: seq<Batch>, x: Batch)
    ensures EndOf(s, tombs + [x]) == x.after && BatchIds(tombs + [x]) == BatchIds(tombs) + x.ids
  {
    assert (tombs + [x])[..|tombs|] == tombs;
  }

  /** From batch `n0` on, every batch commits. */
  ghost predicate CommitFrom(commits: nat -> bool, n0: nat) {
    forall n :: n >= n0 ==> commits(n)
  }

  function Batches(n: nat): nat {
    (n + BATCH - 1) / BATCH
  }

  lemma NothingCommitted(s: State)
    ensures CommitDirty(s, {}) == s && CommitDeleted(s, {}) == s && ToSet([]) == {}
  {
    assert Written(s.mem, s.disk, {}) == s.disk;
    assert s.disk - {} == s.disk;
  }

  lemma WrittenOneMore(mem: map<Id, Record>, disk: map<Id, Record>, ids: set<Id>, id: Id)
    ensures var tx := Written(mem, disk, ids);
            Written(mem, disk, ids + {id}) ==
            if id !in mem then tx - {id} else if InTree(mem[id]) then tx[id := mem[id]] else tx
  {
  }

  lemma SplitSets(ids: seq<Id>, i: nat, end: nat)
    requires i <= end <= |ids|
    ensures ToSet(ids[i..]) == ToSet(ids[i..end]) + ToSet(ids[end..])
    ensures ToSet(ids[..end]) == ToSet(ids[..i]) + ToSet(ids[i..end])
  {
    assert ids[i..] == ids[i..end] + ids[end..];
    assert ids[..end] == ids[..i] + ids[i..end];
  }

  lemma CommitTwice(s: State, a: set<Id>, b: set<Id>)
    ensures CommitDirty(CommitDirty(s, a), b) == CommitDirty(s, a + b)
  {
    assert Written(s.mem, Written(s.mem, s.disk, a), b) == Written(s.mem, s.disk, a + b);
    assert s.owed - a - b == s.owed - (a + b);
    assert s.unread - a - b == s.unread - (a + b);
  }

  lemma DropTwice(s: State, a: set<Id>, b: set<Id>)
    ensures CommitDeleted(CommitDeleted(s, a), b) == CommitDeleted(s, a + b)
  {
    assert s.disk - a - b == s.disk - (a + b);
    assert s.unread - a - b == s.unread - (a + b);
  }

  /** What a committed pass without interference leaves behind. */
  lemma PassOutcome(s: State)
    requires Inv(s, {}, {})
    ensures var r := CommitDeleted(CommitDirty(s.(dirty := {}, deleted := {}), s.dirty), s.deleted);
            && r.mem == s.mem && r.dirty == {} && r.deleted == {}
            && (forall id :: id in r.disk ==> id in r.mem || id in s.unread - s.dirty - s.deleted)
            && (forall id :: id in s.dirty && id in s.mem && InTree(s.mem[id]) ==> id in r.disk && r.disk[id] == s.mem[id])
            && (Tracked(s, {}) ==> forall id :: id in s.mem && InTree(s.mem[id]) && id !in s.quiet && id !in s.deleted ==>
                  id in r.disk && r.disk[id] == s.mem[id])
  {
  }

  /**
   * An id removed, re-inserted during the pass and caught in a failed tombstone batch: it is live and
   * owes a write, yet is no longer dirty, and the next committed pass erases it from disk.
   */
  lemma FailedTombstoneLosesWrite(id: Id, first: Record, second: Record)
    requires InTree(second)
    ensures var loaded := State(map[id := first], map[id := first], {}, {}, {}, {}, {});
            var removed := Mutate(loaded, Remove(id));
            var swapped := removed.(dirty := {}, deleted := {});
            var failed := FailDeleted(Mutate(swapped, Store(id, second)), removed.deleted);
            var next := CommitDeleted(CommitDirty(failed.(dirty := {}, deleted := {}), failed.dirty), failed.deleted);
            && failed.mem == map[id := second] && id in failed.owed && id !in failed.dirty
            && next.mem == map[id := second] && id !in next.disk && next.dirty == {} && next.deleted == {}
  {
  }
}
