/** What every run of mutators keeps: ring coverage, the generation heap and the folder counter. */
module InodeRuns {
  import opened HeapOrder
  import opened InodeModel
  import opened Wrappers

  ghost predicate HasEntry(ring: seq<seq<TtlEntry>>, id: Id) {
    exists b :: 0 <= b < |ring| && At(ring, b, id)
  }

  ghost predicate IsCurrent(s: State, e: HeapEntry) {
    e in s.heap && e.generation == Generation(s.gen, e.id)
  }

  /** Each listed folder has a heap entry of its current generation. */
  ghost predicate Scored(s: State, id: Id) {
    exists e :: IsCurrent(s, e) && e.id == id
  }

  /** Heap-ordered; no folder has two slots of one generation, and none has one from the future. */
  ghost predicate SlotsOk(s: State) {
    && IsHeap(EntryLe, s.heap, |s.heap|)
    && (forall e :: e in s.heap ==> multiset(s.heap)[e] == 1 && e.generation <= Generation(s.gen, e.id))
    && (forall e, f :: e in s.heap && f in s.heap && e.id == f.id && e.generation == f.generation ==> e == f)
  }

  ghost predicate Counted(s: State) {
    |ListedIds(s.inodes)| <= s.cached
  }

  /**
   * How much is claimed: the order of the slots and the counter, which nothing disturbs; also a current
   * slot for each listed folder, which re-keying a listed folder can lose; also a ring entry for each,
   * which a late sweep can lose.
   */
  datatype Claim = Counts | Scores | Entries

  /** The invariant, except that folder `but` may still have to be filed and scored. */
  ghost predicate InvBut(s: State, but: Option<Id>, claim: Claim) {
    && |s.ring| == BUCKETS && SlotsOk(s) && Counted(s)
    && (forall id :: ListedIn(s, id) && but != Some(id) ==> (claim.Entries? ==> HasEntry(s.ring, id)) && (!claim.Counts? ==> Scored(s, id)))
  }

  ghost predicate Inv(s: State, claim: Claim) {
    InvBut(s, None, claim)
  }

  /** Claims in order of strength. */
  lemma WeakerClaim(s: State, claim: Claim)
    requires Inv(s, claim)
    ensures Inv(s, Counts) && (claim.Entries? ==> Inv(s, Scores))
  {
  }

  lemma EmptyInv(s: State)
    requires s.inodes == map[] && s.heap == [] && |s.ring| == BUCKETS && s.cached == 0
    ensures Inv(s, Entries)
  {
  }

  // ---------------------------------------------------------------------------
  // Filing and scoring
  // ---------------------------------------------------------------------------

  lemma RegisterEffect(base: int, ring: seq<seq<TtlEntry>>, id: Id, i: Inode)
    requires |ring| == BUCKETS && Listed(i)
    ensures var r := Register(base, ring, id, i);
            |r| == BUCKETS &&
            forall b, x :: 0 <= b < BUCKETS ==> (At(r, b, x) <==> At(ring, b, x) || (x == id && b == BucketIndex(Expiry(base, i))))
  {
    var b0 := BucketIndex(Expiry(base, i));
    forall x
      ensures Mentions(ring[b0] + [TtlEntry(id, Expiry(base, i))], x) <==> Mentions(ring[b0], x) || x == id
    {
      MentionsAppend(ring[b0], TtlEntry(id, Expiry(base, i)), x);
    }
  }

  lemma RegisterCovers(base: int, ring: seq<seq<TtlEntry>>, id: Id, i: Inode)
    requires |ring| == BUCKETS && Listed(i)
    ensures var r := Register(base, ring, id, i);
            |r| == BUCKETS && HasEntry(r, id) && forall x :: HasEntry(ring, x) ==> HasEntry(r, x)
  {
    RegisterEffect(base, ring, id, i);
    var r := Register(base, ring, id, i);
    assert At(r, BucketIndex(Expiry(base, i)), id);
    forall x | HasEntry(ring, x)
      ensures HasEntry(r, x)
    {
      var b :| 0 <= b < |ring| && At(ring, b, x);
      assert At(r, b, x);
    }
  }

  lemma PushMembers(h: seq<HeapEntry>, e: HeapEntry)
    ensures forall x :: x in Push(EntryLe, h, e) <==> x in h || x == e
    ensures forall x :: multiset(Push(EntryLe, h, e))[x] == multiset(h)[x] + (if x == e then 1 else 0)
  {
    var r := Push(EntryLe, h, e);
    assert forall x :: x in r <==> x in multiset(r);
    assert forall x :: x in h <==> x in multiset(h);
  }

  /** Rescoring supersedes the folder's older slots and disturbs no other folder. */
  lemma RescoreEffect(s: State, id: Id, i: Inode, now: int)
    requires SlotsOk(s) && Listed(i)
    ensures var r := Rescore(s, id, i, now);
            SlotsOk(r) && Scored(r, id) && forall x :: Scored(s, x) ==> Scored(r, x)
  {
    EntryOrder();
    hide IsHeap, Push, SizeScore, TotalPreorder;
    var r := Rescore(s, id, i, now);
    var newest := HeapEntry(id, SizeScore(i, now), i.cachedAt, Generation(s.gen, id) + 1);
    PushMembers(s.heap, newest);
    assert newest !in s.heap && IsCurrent(r, newest);
    forall x | Scored(s, x)
      ensures Scored(r, x)
    {
      if x != id {
        var e :| IsCurrent(s, e) && e.id == x;
        assert IsCurrent(r, e);
      }
    }
  }

  lemma ScheduleInv(base: int, s: State, id: Id, i: Inode, now: int, claim: Claim)
    requires InvBut(s, Some(id), claim) && Listed(i)
    ensures Inv(Schedule(base, s, id, i, now), claim)
  {
    RegisterCovers(base, s.ring, id, i);
    var filed := s.(ring := Register(base, s.ring, id, i));
    RescoreEffect(filed, id, i, now);
    var r := Schedule(base, s, id, i, now);
    forall x | ListedIn(r, x)
      ensures (claim.Entries? ==> HasEntry(r.ring, x)) && (!claim.Counts? ==> Scored(r, x))
    {
      if x != id && !claim.Counts? {
        assert ListedIn(s, x) && Scored(s, x);
        assert Scored(filed, x) by {
          var e :| IsCurrent(s, e) && e.id == x;
          assert IsCurrent(filed, e);
        }
      }
    }
  }

  /** A change of inodes and counter that lists nothing new but `but`. */
  lemma Relist(s: State, r: State, but: Option<Id>, claim: Claim)
    requires Inv(s, claim) && r == s.(inodes := r.inodes, cached := r.cached) && Counted(r)
    requires forall id :: ListedIn(r, id) && but != Some(id) ==> ListedIn(s, id)
    ensures InvBut(r, but, claim)
  {
    forall id | ListedIn(r, id) && but != Some(id)
      ensures (claim.Entries? ==> HasEntry(r.ring, id)) && (!claim.Counts? ==> Scored(r, id))
    {
      assert ListedIn(s, id);
      if !claim.Counts? {
        var e :| IsCurrent(s, e) && e.id == id;
        assert IsCurrent(r, e);
      }
    }
  }

  lemma NoneListed(s: State, r: State, claim: Claim)
    requires Inv(s, claim) && r == s.(inodes := r.inodes)
    requires forall id :: ListedIn(r, id) ==> ListedIn(s, id)
    ensures Inv(r, claim)
  {
    assert forall x :: x in ListedIds(r.inodes) ==> ListedIn(r, x);
    Subset(ListedIds(r.inodes), ListedIds(s.inodes));
    Relist(s, r, None, claim);
  }

  lemma OneListed(s: State, r: State, id: Id, claim: Claim)
    requires Inv(s, claim) && r == s.(inodes := r.inodes, cached := s.cached + 1)
    requires forall x :: ListedIn(r, x) && x != id ==> ListedIn(s, x)
    ensures InvBut(r, Some(id), claim)
  {
    assert forall x :: x in ListedIds(r.inodes) ==> ListedIn(r, x);
    Subset(ListedIds(r.inodes), ListedIds(s.inodes) + {id});
    assert |ListedIds(s.inodes) + {id}| <= |ListedIds(s.inodes)| + 1;
    Relist(s, r, Some(id), claim);
  }

  lemma OneUnlisted(s: State, r: State, id: Id, claim: Claim)
    requires Inv(s, claim) && id in s.inodes && !ListedIn(r, id)
    requires r == s.(inodes := r.inodes, cached := if Listed(s.inodes[id]) then s.cached - 1 else s.cached)
    requires forall x :: ListedIn(r, x) ==> ListedIn(s, x)
    ensures Inv(r, claim)
  {
    assert forall x :: x in ListedIds(r.inodes) ==> ListedIn(r, x);
    Subset(ListedIds(r.inodes), ListedIds(s.inodes) - {id});
    Relist(s, r, None, claim);
  }

  lemma {:induction false} Subset(a: set<Id>, b: set<Id>)
    requires a <= b
    ensures |a| <= |b|
    decreases a
  {
    if a != {} {
      var x :| x in a;
      Subset(a - {x}, b - {x});
    }
  }

  // ---------------------------------------------------------------------------
  // Every mutator keeps the invariant
  // ---------------------------------------------------------------------------

  lemma AttachOrSeedInv(base: int, s: State, parent: Id, child: Id, now: int, claim: Claim)
    requires Inv(s, claim)
    ensures Inv(AttachOrSeed(base, s, parent, child, now), claim)
  {
    hide InvBut, Schedule;
    if parent in s.inodes {
      if Listed(s.inodes[parent]) {
        NoneListed(s, AttachOrSeed(base, s, parent, child, now), claim);
      } else {
        var seeded := s.inodes[parent].(children := Some([child]));
        var r := s.(inodes := s.inodes[parent := seeded], cached := s.cached + 1);
        OneListed(s, r, parent, claim);
        ScheduleInv(base, r, parent, seeded, now, claim);
      }
    }
  }

  lemma {:induction false} StoreAllUnlisted(inodes: map<Id, Inode>, items: seq<(Id, Inode)>, parent: Id)
    requires forall k :: 0 <= k < |items| ==> !Listed(items[k].1)
    ensures var r := StoreAll(inodes, items, parent);
            forall id :: id in r && Listed(r[id]) ==> id in inodes && Listed(inodes[id])
    decreases |items|
  {
    if items != [] {
      var (id, i) := items[0];
      StoreAllUnlisted(inodes[id := if i.parent == "" then i.(parent := parent) else i], items[1..], parent);
    }
  }

  lemma PopulateInv(base: int, s: State, parent: Id, items: seq<(Id, Inode)>, now: int, claim: Claim)
    requires Inv(s, claim) && BringsUnlisted(Populate(parent, items))
    ensures Inv(PopulateStep(base, s, parent, items, now), claim)
  {
    hide InvBut, Schedule;
    var known := parent in s.inodes;
    var folder := if known then s.inodes[parent] else Inode(None, 0, 0, 0, "");
    var stored := StoreAll(s.inodes, items, parent);
    var listed := Bump(SetChildren(folder, Some(Ids(items)), now), now);
    var inodes := if known && parent in Ids(items) then stored else stored[parent := listed];
    StoreAllUnlisted(s.inodes, items, parent);
    if Listed(folder) {
      NoneListed(s, s.(inodes := inodes), claim);
      WeakenInv(s.(inodes := inodes), parent, claim);
      ScheduleInv(base, s.(inodes := inodes), parent, listed, now, claim);
    } else {
      OneListed(s, s.(inodes := inodes, cached := s.cached + 1), parent, claim);
      ScheduleInv(base, s.(inodes := inodes, cached := s.cached + 1), parent, listed, now, claim);
    }
  }

  /** Re-keying leaves slots and ring entries under the old id, so the new one has to have its own. */
  ghost predicate KeepsClaim(s: State, op: Op, claim: Claim) {
    RekeysListed(s, op) && op.oldId != op.newId ==>
      (claim.Entries? ==> HasEntry(s.ring, op.newId)) && (!claim.Counts? ==> Scored(s, op.newId))
  }

  lemma RekeyInv(base: int, s: State, op: Op, now: int, claim: Claim)
    requires Inv(s, claim) && RekeysListed(s, op)
    ensures Inv(Step(base, s, op, now), claim) <==> KeepsClaim(s, op, claim)
  {
    var r, oldId, newId := Step(base, s, op, now), op.oldId, op.newId;
    if oldId == newId {
      NoneListed(s, r, claim);
    } else {
      assert ListedIn(r, newId);
      assert forall x :: x in ListedIds(r.inodes) ==> ListedIn(r, x);
      var others := ListedIds(s.inodes) - {oldId};
      Subset(ListedIds(r.inodes), others + {newId});
      assert |others + {newId}| <= |others| + 1;
      Relist(s, r, Some(newId), claim);
      hide SlotsOk, Counted, HasEntry;
      if !claim.Counts? {
        SameSlots(s, r, newId);
      }
    }
  }

  lemma SameSlots(s: State, r: State, id: Id)
    requires r.heap == s.heap && r.gen == s.gen
    ensures Scored(r, id) <==> Scored(s, id)
  {
    if Scored(s, id) {
      var e :| IsCurrent(s, e) && e.id == id;
      assert IsCurrent(r, e);
    }
    if Scored(r, id) {
      var e :| IsCurrent(r, e) && e.id == id;
      assert IsCurrent(s, e);
    }
  }

  /**
   * Every mutator, at any time, keeps every listed folder filed, scored once and counted, with one
   * exception: re-keying a listed folder, exactly if the new id is not already filed and scored.
   */
  lemma StepInv(base: int, s: State, op: Op, now: int, claim: Claim)
    requires Inv(s, claim) && BringsUnlisted(op)
    ensures Inv(Step(base, s, op, now), claim) <==> KeepsClaim(s, op, claim)
  {
    hide InvBut, Schedule, AttachOrSeed, PopulateStep;
    var r := Step(base, s, op, now);
    match op
    case Insert(id, inode) =>
      var stored := s.(inodes := s.inodes[id := inode]);
      NoneListed(s, stored, claim);
      AttachOrSeedInv(base, stored, inode.parent, id, now, claim);
    case Delete(id) =>
      if id in s.inodes {
        OneUnlisted(s, r, id, claim);
      }
    case Hit(parent) =>
      if ListedIn(s, parent) {
        var hit := Bump(s.inodes[parent], now);
        var touched := s.(inodes := s.inodes[parent := hit]);
        NoneListed(s, touched, claim);
        WeakenInv(touched, parent, claim);
        ScheduleInv(base, touched, parent, hit, now, claim);
      }
    case Populate(parent, items) =>
      PopulateInv(base, s, parent, items, now, claim);
    case Invalidate(parent) =>
      if parent in s.inodes {
        OneUnlisted(s, r, parent, claim);
      }
    case InsertChild(parent, child, inode) =>
      NoneListed(s, r, claim);
    case RemoveChild(parent, child) =>
      NoneListed(s, r, claim);
    case MoveChild(oldParent, newParent, child) =>
      if child in s.inodes {
        var detached := if oldParent in s.inodes then s.inodes[oldParent := Detach(s.inodes[oldParent], child)] else s.inodes;
        NoneListed(s, s.(inodes := detached), claim);
        AttachOrSeedInv(base, s.(inodes := detached), newParent, child, now, claim);
      }
    case MoveID(oldId, newId) =>
      if RekeysListed(s, op) {
        RekeyInv(base, s, op, now, claim);
      } else {
        NoneListed(s, r, claim);
      }
    case Restore(id, inode) =>
      if id !in s.inodes {
        if Listed(inode) {
          var stored := s.(inodes := s.inodes[id := inode], cached := s.cached + 1);
          OneListed(s, stored, id, claim);
          ScheduleInv(base, stored, id, inode, now, claim);
        } else {
          NoneListed(s, r, claim);
        }
      }
  }

  lemma WeakenInv(s: State, id: Id, claim: Claim)
    requires Inv(s, claim)
    ensures InvBut(s, Some(id), claim)
  {
  }

  // ---------------------------------------------------------------------------
  // Size-limit eviction
  // ---------------------------------------------------------------------------

  /** A slot that still speaks for a listed folder. */
  ghost predicate Live(s: State, e: HeapEntry) {
    IsCurrent(s, e) && ListedIn(s, e.id)
  }

  /** Idle for at least the grace period. */
  predicate Idle(i: Inode, now: int) {
    now - i.lastAccess >= GRACE
  }

  /** `e` is a live slot that no live slot beats. */
  ghost predicate LeastLive(s: State, e: HeapEntry) {
    Live(s, e) && forall x :: Live(s, x) ==> e.score < x.score || (e.score == x.score && e.age <= x.age)
  }

  /** Nothing may be evicted for size: no live slot, or a least one whose folder is still in its grace. */
  ghost predicate NoVictim(s: State, now: int) {
    (forall e :: !Live(s, e)) || exists e :: LeastLive(s, e) && now - s.inodes[e.id].lastAccess < 5 * SECOND
  }

  /** heap.Pop removes exactly one slot, a least one. */
  lemma PopSlots(s: State)
    requires SlotsOk(s) && |s.heap| > 0
    ensures var r := s.(heap := Rest(EntryLe, s.heap));
            SlotsOk(r) && forall e :: e in r.heap <==> e in s.heap && e != s.heap[0]
    ensures forall e :: e in s.heap ==> s.heap[0].score < e.score || (s.heap[0].score == e.score && s.heap[0].age <= e.age)
    ensures forall e :: e in s.heap && e != s.heap[0] && e.id == s.heap[0].id ==> e.generation != s.heap[0].generation
  {
    EntryOrder();
    var h := Rest(EntryLe, s.heap);
    assert forall e :: e in h <==> e in multiset(h);
    assert forall e :: e in s.heap <==> e in multiset(s.heap);
    forall e | e in s.heap
      ensures EntryLe(s.heap[0], e)
    {
      PopLeast(EntryLe, s.heap, e);
    }
  }

  /** Pushing back a slot that was just popped. */
  lemma PushBack(s: State, e: HeapEntry)
    requires SlotsOk(s) && e.generation == Generation(s.gen, e.id)
    requires forall x :: x in s.heap && x.id == e.id ==> x.generation != e.generation
    ensures var r := s.(heap := Push(EntryLe, s.heap, e));
            SlotsOk(r) && forall x :: x in r.heap <==> x in s.heap || x == e
  {
    EntryOrder();
    PushMembers(s.heap, e);
  }

  /** A folder has one live slot; dropping the others' dead slots leaves every listed folder scored. */
  lemma DropSlots(s: State, r: State, claim: Claim)
    requires Inv(s, claim) && SlotsOk(r) && r == s.(heap := r.heap)
    requires forall e :: Live(s, e) ==> e in r.heap
    ensures Inv(r, claim)
  {
    forall id | ListedIn(r, id)
      ensures (claim.Entries? ==> HasEntry(r.ring, id)) && (!claim.Counts? ==> Scored(r, id))
    {
      assert ListedIn(s, id);
      if !claim.Counts? {
        var e :| IsCurrent(s, e) && e.id == id;
        assert Live(s, e) && IsCurrent(r, e);
      }
    }
  }

  lemma EvictOne(s: State, r: State, e: HeapEntry, claim: Claim)
    requires Inv(s, claim) && SlotsOk(r) && ListedIn(s, e.id)
    requires r == s.(heap := r.heap, inodes := s.inodes[e.id := s.inodes[e.id].(children := None)],
                     cached := s.cached - 1, evictions := s.evictions + 1)
    requires forall x :: Live(s, x) && x != e ==> x in r.heap
    ensures Inv(r, claim) && |ListedIds(r.inodes)| == |ListedIds(s.inodes)| - 1
  {
    assert ListedIds(r.inodes) == ListedIds(s.inodes) - {e.id};
    forall id | ListedIn(r, id)
      ensures (claim.Entries? ==> HasEntry(r.ring, id)) && (!claim.Counts? ==> Scored(r, id))
    {
      assert ListedIn(s, id);
      if !claim.Counts? {
        var x :| IsCurrent(s, x) && x.id == id;
        assert Live(s, x) && IsCurrent(r, x);
      }
    }
  }

  /** Whatever is claimed of `s` holds of `r`. */
  ghost predicate Preserves(s: State, r: State) {
    forall claim :: Inv(s, claim) ==> Inv(r, claim)
  }

  lemma DropAll(s: State, r: State)
    requires Inv(s, Counts) && SlotsOk(r) && r == s.(heap := r.heap) && forall e :: Live(s, e) ==> e in r.heap
    ensures Inv(r, Counts) && Preserves(s, r)
  {
    hide InvBut, SlotsOk, Live;
    forall claim | Inv(s, claim)
      ensures Inv(r, claim)
    {
      DropSlots(s, r, claim);
    }
  }

  lemma EvictAll(s: State, r: State, e: HeapEntry)
    requires Inv(s, Counts) && SlotsOk(r) && ListedIn(s, e.id)
    requires r == s.(heap := r.heap, inodes := s.inodes[e.id := s.inodes[e.id].(children := None)],
                     cached := s.cached - 1, evictions := s.evictions + 1)
    requires forall x :: Live(s, x) && x != e ==> x in r.heap
    ensures Inv(r, Counts) && Preserves(s, r) && |ListedIds(r.inodes)| == |ListedIds(s.inodes)| - 1
  {
    hide InvBut, SlotsOk, Live;
    EvictOne(s, r, e, Counts);
    forall claim | Inv(s, claim)
      ensures Inv(r, claim)
    {
      EvictOne(s, r, e, claim);
    }
  }

  /** What a pass evicted scores no higher, and on equal scores is no younger, than what it left listed. */
  ghost predicate LowestFirst(s: State, r: State) {
    forall e, x :: Live(s, e) && !ListedIn(r, e.id) && Live(s, x) && ListedIn(r, x.id) ==>
      e.score < x.score || (e.score == x.score && e.age <= x.age)
  }

  /** The live slots of the folders still listed are still there, and no slot is new. */
  ghost predicate LiveKept(s: State, r: State) {
    r.gen == s.gen && (forall x :: Live(s, x) && ListedIn(r, x.id) ==> x in r.heap) && (forall x :: x in r.heap ==> x in s.heap)
  }

  /** Evicting the folder of a least live slot goes on with the lowest. */
  lemma LowestNext(s: State, m: State, r: State, c: HeapEntry)
    requires SlotsOk(s) && LowestFirst(s, m) && LiveKept(s, m) && LeastLive(m, c) && r.gen == m.gen
    requires r.inodes == m.inodes[c.id := m.inodes[c.id].(children := None)]
    requires (forall x :: Live(m, x) && x != c ==> x in r.heap) && (forall x :: x in r.heap ==> x in m.heap)
    ensures LowestFirst(s, r) && LiveKept(s, r)
  {
    forall x | Live(s, x) && ListedIn(r, x.id)
      ensures Live(m, x) && x != c
    {
    }
    forall e, x | Live(s, e) && !ListedIn(r, e.id) && Live(s, x) && ListedIn(r, x.id)
      ensures e.score < x.score || (e.score == x.score && e.age <= x.age)
    {
      if ListedIn(m, e.id) {
        assert e.id == c.id && e == c;
      }
    }
  }

  lemma LowestNone(s: State)
    ensures LowestFirst(s, s) && LiveKept(s, s)
  {
  }

  lemma LowestSame(s: State, m: State, r: State)
    requires LowestFirst(s, m) && LiveKept(s, m) && r.gen == m.gen && r.inodes == m.inodes
    requires (forall x :: Live(m, x) ==> x in r.heap) && (forall x :: x in r.heap ==> x in m.heap)
    ensures LowestFirst(s, r) && LiveKept(s, r)
  {
  }

  lemma SlotsOfInv(s: State, claim: Claim)
    requires Inv(s, claim)
    ensures SlotsOk(s)
  {
  }

  lemma LeastIsListed(s: State, e: HeapEntry)
    requires LeastLive(s, e)
    ensures Live(s, e)
  {
  }

  /** Slots do not depend on inodes and counters. */
  lemma SlotsFrame(s: State, r: State)
    requires SlotsOk(s) && r.heap == s.heap && r.gen == s.gen
    ensures SlotsOk(r)
  {
  }

  /** Exactly one slot of a listed folder is of its current generation; all its others are older. */
  lemma OneLiveSlot(s: State, id: Id) returns (e: HeapEntry)
    requires Inv(s, Scores) && ListedIn(s, id)
    ensures Live(s, e) && e.id == id && multiset(s.heap)[e] == 1
    ensures forall x :: x in s.heap && x.id == id && x != e ==> x.generation < e.generation
  {
    assert Scored(s, id);
    e :| IsCurrent(s, e) && e.id == id;
  }
}
