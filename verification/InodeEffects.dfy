/** What each mutator of the inode cache does to the inodes, their listings, the ring, the slots and the counter. */
module InodeEffects {
  import opened HeapOrder
  import opened Wrappers
  import opened InodeModel
  import opened InodeRuns

  /** Every inode but those of `ids` is as before. */
  ghost predicate SameBut(a: map<Id, Inode>, b: map<Id, Inode>, ids: set<Id>) {
    forall x :: x !in ids ==> (x in b <==> x in a) && (x in a ==> b[x] == a[x])
  }

  /** Ring, slots, generations and counter are as before. */
  ghost predicate SameBooks(s: State, r: State) {
    r == s.(inodes := r.inodes)
  }

  /** Folder `id` has been filed under its deadline and given a slot of a new generation; nothing else was filed or scored. */
  ghost predicate ScheduledAs(base: int, s: State, r: State, id: Id, i: Inode, now: int) {
    var deadline := i.lastAccess + EffectiveTTL(base, i.access);
    var slot := HeapEntry(id, SizeScore(i, now), i.cachedAt, Generation(s.gen, id) + 1);
    && |r.ring| == BUCKETS
    && (forall b, x :: 0 <= b < BUCKETS ==> (At(r.ring, b, x) <==> At(s.ring, b, x) || (x == id && b == deadline / SECOND % BUCKETS)))
    && multiset(r.heap) == multiset(s.heap) + multiset{slot} && r.gen == s.gen[id := slot.generation]
    && r.evictions == s.evictions && r.lastSweep == s.lastSweep
  }

  /** `m` is `s` with new inodes and a new count, about to be scheduled. */
  lemma ScheduleEffect(base: int, s: State, m: State, id: Id, i: Inode, now: int)
    requires |s.ring| == BUCKETS && Listed(i) && m == s.(inodes := m.inodes, cached := m.cached)
    ensures var r := Schedule(base, m, id, i, now);
            ScheduledAs(base, s, r, id, i, now) && r.inodes == m.inodes && r.cached == m.cached
  {
    RegisterEffect(base, s.ring, id, i);
    BucketIndexIsResidue(Expiry(base, i));
    hide SizeScore, BucketIndex, EffectiveTTL, At, Register, Push;
  }

  // ---------------------------------------------------------------------------
  // Populations and hits
  // ---------------------------------------------------------------------------

  /** The fetched items as they are stored: the last of each id, under its own parent or else the listed one. */
  ghost predicate StoredItems(r: map<Id, Inode>, items: seq<(Id, Inode)>, parent: Id, but: set<Id>) {
    forall k :: 0 <= k < |items| && items[k].0 !in but && items[k].0 !in Ids(items)[k + 1..] ==>
      items[k].0 in r && r[items[k].0] == items[k].1.(parent := if items[k].1.parent == "" then parent else items[k].1.parent)
  }

  lemma {:induction false} StoreOthers(inodes: map<Id, Inode>, items: seq<(Id, Inode)>, parent: Id, x: Id)
    requires x !in Ids(items)
    ensures var r := StoreAll(inodes, items, parent); (x in r <==> x in inodes) && (x in inodes ==> r[x] == inodes[x])
    decreases |items|
  {
    if items != [] {
      var (id, i) := items[0];
      assert Ids(items) == [id] + Ids(items[1..]);
      StoreOthers(inodes[id := if i.parent == "" then i.(parent := parent) else i], items[1..], parent, x);
    }
  }

  lemma {:induction false} StoredAt(inodes: map<Id, Inode>, items: seq<(Id, Inode)>, parent: Id, k: nat)
    requires k < |items| && items[k].0 !in Ids(items)[k + 1..]
    ensures var r, i := StoreAll(inodes, items, parent), items[k].1;
            items[k].0 in r && r[items[k].0] == i.(parent := if i.parent == "" then parent else i.parent)
    decreases |items|
  {
    var (id, i) := items[0];
    var stored, tail := inodes[id := if i.parent == "" then i.(parent := parent) else i], items[1..];
    assert Ids(items) == [id] + Ids(tail);
    if k > 0 {
      assert tail[k - 1] == items[k] && Ids(tail)[k..] == Ids(items)[k + 1..];
      StoredAt(stored, tail, parent, k - 1);
    } else {
      assert Ids(items)[1..] == Ids(tail);
      StoreOthers(stored, tail, parent, id);
    }
  }

  lemma StoreAllEffect(inodes: map<Id, Inode>, items: seq<(Id, Inode)>, parent: Id)
    ensures var r := StoreAll(inodes, items, parent);
            StoredItems(r, items, parent, {}) && SameBut(inodes, r, set x | x in Ids(items))
  {
    hide StoreAll;
    var r := StoreAll(inodes, items, parent);
    forall k | 0 <= k < |items| && items[k].0 !in Ids(items)[k + 1..]
      ensures items[k].0 in r && r[items[k].0] == items[k].1.(parent := if items[k].1.parent == "" then parent else items[k].1.parent)
    {
      StoredAt(inodes, items, parent, k);
    }
    forall x | x !in set y | y in Ids(items)
      ensures (x in r <==> x in inodes) && (x in inodes ==> r[x] == inodes[x])
    {
      StoreOthers(inodes, items, parent, x);
    }
  }

  lemma StoredBut(before: map<Id, Inode>, stored: map<Id, Inode>, items: seq<(Id, Inode)>, parent: Id, listed: Inode)
    requires StoredItems(stored, items, parent, {}) && SameBut(before, stored, set x | x in Ids(items))
    ensures StoredItems(stored[parent := listed], items, parent, {parent})
    ensures SameBut(before, stored[parent := listed], {parent} + set x | x in Ids(items))
    ensures SameBut(before, stored, {parent} + set x | x in Ids(items))
  {
  }

  /**
   * A population caches the fetched ids, in order, as the folder's listing, and every fetched item.
   * If the listing names the known folder itself, the item replaces it and the listing is lost.
   */
  lemma PopulateEffect(base: int, s: State, parent: Id, items: seq<(Id, Inode)>, now: int)
    requires |s.ring| == BUCKETS
    ensures var r := Step(base, s, Populate(parent, items), now);
            var folder := if parent in s.inodes then s.inodes[parent] else Inode(None, 0, 0, 0, "");
            var lost := parent in s.inodes && parent in Ids(items);
            var ids := seq(|items|, k requires 0 <= k < |items| => items[k].0);
            var listed := Inode(Some(ids), folder.access + 1, now, now, folder.parent);
            && (!lost ==> parent in r.inodes && r.inodes[parent] == listed)
            && StoredItems(r.inodes, items, parent, if lost then {} else {parent})
            && SameBut(s.inodes, r.inodes, {parent} + set x | x in Ids(items))
            && r.cached == s.cached + (if Listed(folder) then 0 else 1)
            && ScheduledAs(base, s, r, parent, listed, now)
  {
    hide Schedule, StoreAll, ScheduledAs, StoredItems, SameBut, Step;
    var folder := if parent in s.inodes then s.inodes[parent] else Inode(None, 0, 0, 0, "");
    var stored := StoreAll(s.inodes, items, parent);
    var listed := Inode(Some(Ids(items)), folder.access + 1, now, now, folder.parent);
    StoreAllEffect(s.inodes, items, parent);
    StoredBut(s.inodes, stored, items, parent, listed);
    var inodes := if parent in s.inodes && parent in Ids(items) then stored else stored[parent := listed];
    var m := s.(inodes := inodes, cached := if Listed(folder) then s.cached else s.cached + 1);
    PopulateIs(base, s, parent, items, now, folder, listed, m);
    ScheduleEffect(base, s, m, parent, listed, now);
    assert Ids(items) == seq(|items|, k requires 0 <= k < |items| => items[k].0);
  }

  lemma PopulateIs(base: int, s: State, parent: Id, items: seq<(Id, Inode)>, now: int, folder: Inode, listed: Inode, m: State)
    requires folder == if parent in s.inodes then s.inodes[parent] else Inode(None, 0, 0, 0, "")
    requires listed == Inode(Some(Ids(items)), folder.access + 1, now, now, folder.parent)
    requires var stored := StoreAll(s.inodes, items, parent);
             m == s.(inodes := if parent in s.inodes && parent in Ids(items) then stored else stored[parent := listed],
                     cached := if Listed(folder) then s.cached else s.cached + 1)
    ensures Step(base, s, Populate(parent, items), now) == Schedule(base, m, parent, listed, now)
  {
    hide Schedule, StoreAll;
  }

  /** A hit counts an access if the listing is younger than its TTL, and changes no listing. */
  lemma HitEffect(base: int, s: State, parent: Id, now: int)
    requires |s.ring| == BUCKETS
    ensures var r := Step(base, s, Hit(parent), now);
            if parent in s.inodes && s.inodes[parent].children.Some? &&
               now - s.inodes[parent].cachedAt < EffectiveTTL(base, s.inodes[parent].access)
            then
              var hit := s.inodes[parent].(access := s.inodes[parent].access + 1, lastAccess := now);
              r.inodes == s.inodes[parent := hit] && r.cached == s.cached && ScheduledAs(base, s, r, parent, hit, now)
            else r == s
  {
    if ListedIn(s, parent) {
      var hit := Bump(s.inodes[parent], now);
      ScheduleEffect(base, s, s.(inodes := s.inodes[parent := hit]), parent, hit, now);
      hide Schedule, ScheduledAs;
    }
  }

  // ---------------------------------------------------------------------------
  // Listings
  // ---------------------------------------------------------------------------

  /** A listing with `child` in it: appended, unless it was there already. */
  ghost predicate Gains(a: Inode, b: Inode, child: Id) {
    && b == a.(children := b.children) && a.children.Some? && b.children.Some?
    && b.children.value == if child in a.children.value then a.children.value else a.children.value + [child]
  }

  /** A listing without `child`, and otherwise with what it had. */
  ghost predicate Loses(a: Inode, b: Inode, child: Id) {
    && b == a.(children := b.children) && a.children.Some? == b.children.Some?
    && (a.children.Some? ==>
          forall x :: multiset(b.children.value)[x] == if x == child then 0 else multiset(a.children.value)[x])
  }

  lemma {:induction false} WithoutCounts(ids: seq<Id>, id: Id)
    ensures forall x :: multiset(Without(ids, id))[x] == if x == id then 0 else multiset(ids)[x]
    decreases |ids|
  {
    if ids != [] {
      WithoutCounts(ids[1..], id);
      assert ids == [ids[0]] + ids[1..];
    }
  }

  lemma DetachEffect(i: Inode, child: Id)
    ensures Loses(i, Detach(i, child), child)
  {
    if Listed(i) {
      WithoutCounts(i.children.value, child);
    }
  }

  /** Attaching with seeding: the parent, if cached, lists the child after it. */
  ghost predicate Adopts(base: int, s: State, r: State, parent: Id, child: Id, now: int) {
    && SameBut(s.inodes, r.inodes, {parent})
    && (parent !in s.inodes ==> r == s)
    && (parent in s.inodes ==>
          && parent in r.inodes
          && (if Listed(s.inodes[parent]) then Gains(s.inodes[parent], r.inodes[parent], child) && SameBooks(s, r)
              else
                && r.inodes[parent] == s.inodes[parent].(children := Some([child]))
                && r.cached == s.cached + 1 && ScheduledAs(base, s, r, parent, r.inodes[parent], now)))
  }

  lemma AttachOrSeedEffect(base: int, s: State, parent: Id, child: Id, now: int)
    requires |s.ring| == BUCKETS
    ensures Adopts(base, s, AttachOrSeed(base, s, parent, child, now), parent, child, now)
  {
    hide Schedule, ScheduledAs;
    if parent in s.inodes && !Listed(s.inodes[parent]) {
      var seeded := s.inodes[parent].(children := Some([child]));
      var m := s.(inodes := s.inodes[parent := seeded], cached := s.cached + 1);
      ScheduleEffect(base, s, m, parent, seeded, now);
      assert AttachOrSeed(base, s, parent, child, now) == Schedule(base, m, parent, seeded, now);
    }
  }

  /** Insert stores the inode and puts it into the listing of its parent. */
  lemma InsertEffect(base: int, s: State, id: Id, inode: Inode, now: int)
    requires |s.ring| == BUCKETS
    ensures var r, stored := Step(base, s, Insert(id, inode), now), s.(inodes := s.inodes[id := inode]);
            if inode.parent == "" then r == stored else Adopts(base, stored, r, inode.parent, id, now)
  {
    hide AttachOrSeed, Adopts;
    AttachOrSeedEffect(base, s.(inodes := s.inodes[id := inode]), inode.parent, id, now);
  }

  /** MoveChild takes the child out of the old listing and puts it into the new one. */
  lemma MoveChildEffect(base: int, s: State, oldParent: Id, newParent: Id, child: Id, now: int) returns (m: State)
    requires |s.ring| == BUCKETS
    ensures var r := Step(base, s, MoveChild(oldParent, newParent, child), now);
            if child !in s.inodes then r == s
            else
              && SameBooks(s, m) && SameBut(s.inodes, m.inodes, {oldParent})
              && (oldParent in s.inodes ==> oldParent in m.inodes && Loses(s.inodes[oldParent], m.inodes[oldParent], child))
              && Adopts(base, m, r, newParent, child, now)
  {
    var detached := if oldParent in s.inodes then s.inodes[oldParent := Detach(s.inodes[oldParent], child)] else s.inodes;
    m := s.(inodes := detached);
    if oldParent in s.inodes {
      DetachEffect(s.inodes[oldParent], child);
    }
    hide AttachOrSeed, Adopts, Detach;
    AttachOrSeedEffect(base, m, newParent, child, now);
  }

  /** Delete drops the inode, takes it out of its parent's listing, and uncounts it if it was listed. */
  lemma DeleteEffect(base: int, s: State, id: Id, now: int)
    ensures var r := Step(base, s, Delete(id), now);
            if id !in s.inodes then r == s
            else
              var p := s.inodes[id].parent;
              && id !in r.inodes && SameBut(s.inodes, r.inodes, {id, p})
              && (p != "" && p != id && p in s.inodes ==> p in r.inodes && Loses(s.inodes[p], r.inodes[p], id))
              && (p == "" ==> SameBut(s.inodes, r.inodes, {id}))
              && r == s.(inodes := r.inodes, cached := s.cached - if s.inodes[id].children.Some? then 1 else 0)
  {
    if id in s.inodes && s.inodes[id].parent in s.inodes {
      DetachEffect(s.inodes[s.inodes[id].parent], id);
    }
  }

  /** RemoveChild drops the child and takes it out of the listing of the parent it is given. */
  lemma RemoveChildEffect(base: int, s: State, parent: Id, child: Id, now: int)
    ensures var r := Step(base, s, RemoveChild(parent, child), now);
            if child !in s.inodes then r == s
            else
              && SameBooks(s, r) && child !in r.inodes && SameBut(s.inodes, r.inodes, {parent, child})
              && (parent != child && parent in s.inodes ==>
                    parent in r.inodes && Loses(s.inodes[parent], r.inodes[parent], child))
  {
    if parent in s.inodes {
      DetachEffect(s.inodes[parent], child);
    }
  }

  /** InsertChild stores the child under the parent and adds it to a listing that exists; it never starts one. */
  lemma InsertChildEffect(base: int, s: State, parent: Id, child: Id, inode: Inode, now: int)
    requires !Listed(inode)
    ensures var r := Step(base, s, InsertChild(parent, child, inode), now);
            && SameBooks(s, r) && SameBut(s.inodes, r.inodes, {parent, child})
            && child in r.inodes && r.inodes[child] == inode.(parent := parent)
            && (parent != child && parent in s.inodes ==>
                  parent in r.inodes && if Listed(s.inodes[parent]) then Gains(s.inodes[parent], r.inodes[parent], child)
                                        else r.inodes[parent] == s.inodes[parent])
            && (parent != child && parent !in s.inodes ==> parent !in r.inodes)
  {
  }

  /** Invalidate forgets the listing, stamps the folder, and uncounts it if it was listed. */
  lemma InvalidateEffect(base: int, s: State, parent: Id, now: int)
    ensures var r := Step(base, s, Invalidate(parent), now);
            if parent !in s.inodes then r == s
            else
              && r.inodes == s.inodes[parent := s.inodes[parent].(children := None, cachedAt := now, lastAccess := now)]
              && r == s.(inodes := r.inodes, cached := s.cached - if s.inodes[parent].children.Some? then 1 else 0)
  {
  }

  /** Restoring never replaces what is cached; a restored listing is filed, scored and counted. */
  lemma RestoreEffect(base: int, s: State, id: Id, inode: Inode, now: int)
    requires |s.ring| == BUCKETS
    ensures var r := Step(base, s, Restore(id, inode), now);
            if id in s.inodes then r == s
            else
              && r.inodes == s.inodes[id := inode]
              && (if inode.children.Some? then r.cached == s.cached + 1 && ScheduledAs(base, s, r, id, inode, now) else SameBooks(s, r))
  {
    if id !in s.inodes && Listed(inode) {
      ScheduleEffect(base, s, s.(inodes := s.inodes[id := inode], cached := s.cached + 1), id, inode, now);
      hide Schedule, ScheduledAs;
    }
  }

  /** `b` is `a` with the first `old` replaced by `new`. */
  ghost predicate FirstReplaced(a: seq<Id>, b: seq<Id>, old_: Id, new_: Id) {
    if old_ !in a then b == a
    else exists k :: 0 <= k < |a| && a[k] == old_ && old_ !in a[..k] && b == a[k := new_]
  }

  lemma {:induction false} ReplaceFirstEffect(ids: seq<Id>, old_: Id, new_: Id)
    ensures FirstReplaced(ids, ReplaceFirst(ids, old_, new_), old_, new_)
    decreases |ids|
  {
    if ids != [] {
      var tail := ids[1..];
      assert ids == [ids[0]] + tail;
      if ids[0] == old_ {
        assert ids[..0] == [] && [new_] + tail == ids[0 := new_];
      } else {
        ReplaceFirstEffect(tail, old_, new_);
        if old_ in tail {
          var k :| 0 <= k < |tail| && tail[k] == old_ && old_ !in tail[..k] && ReplaceFirst(tail, old_, new_) == tail[k := new_];
          assert ids[..k + 1] == [ids[0]] + tail[..k];
          assert [ids[0]] + tail[k := new_] == ids[k + 1 := new_];
        }
      }
    }
  }

  /** MoveID moves the inode to its new key and renames it in its parent's listing. */
  lemma MoveIDEffect(base: int, s: State, oldId: Id, newId: Id, now: int)
    ensures var r := Step(base, s, MoveID(oldId, newId), now);
            if oldId !in s.inodes then r == s
            else
              var p := s.inodes[oldId].parent;
              && SameBooks(s, r) && oldId !in r.inodes && SameBut(s.inodes, r.inodes, {oldId, newId, p})
              && (oldId != newId && p != newId ==> newId in r.inodes && r.inodes[newId] == s.inodes[oldId])
              && (p == "" ==> SameBut(s.inodes, r.inodes, {oldId, newId}))
              && (p != "" && p != oldId && p != newId && p in s.inodes ==>
                    && p in r.inodes && r.inodes[p] == s.inodes[p].(children := r.inodes[p].children)
                    && r.inodes[p].children.Some? == s.inodes[p].children.Some?
                    && (s.inodes[p].children.Some? ==>
                          FirstReplaced(s.inodes[p].children.value, r.inodes[p].children.value, oldId, newId)))
  {
    if oldId in s.inodes {
      var p := s.inodes[oldId].parent;
      if p in s.inodes && Listed(s.inodes[p]) {
        ReplaceFirstEffect(s.inodes[p].children.value, oldId, newId);
      }
      hide FirstReplaced, ReplaceFirst;
    }
  }
}
