/** State of the inode cache, its TTL and score arithmetic, and its atomic mutators. */
module InodeModel {
  import opened HeapOrder
  import opened Wrappers

  type Id = string

  /** Time is counted in nanoseconds of one clock. */
  const SECOND := 1_000_000_000
  const BUCKETS := 60
  const GRACE := 5 * SECOND

  /** `children` is None until the folder has been listed. An empty `parent` means no parent. */
  datatype Inode = Inode(children: Option<seq<Id>>, access: nat, lastAccess: int, cachedAt: int, parent: Id)

  predicate Listed(i: Inode) {
    i.children.Some?
  }

  /** Go's integer conversion of a duration: truncation towards zero. */
  function Truncate(x: int, d: int): int
    requires d > 0
  {
    if x >= 0 then x / d else -((-x) / d)
  }

  /** base × min(1 + access / 2, 20). */
  function EffectiveTTL(base: int, access: nat): int {
    Truncate(base * (if 2 + access > 40 then 40 else 2 + access), 2)
  }

  function Expiry(base: int, i: Inode): int {
    i.lastAccess + EffectiveTTL(base, i.access)
  }

  function Decay(i: Inode): Inode {
    i.(access := i.access / 2)
  }

  /** What a sweep does to one listed folder: decay, then eviction if the decayed TTL has passed. */
  function ScanOne(base: int, i: Inode, now: int): Inode {
    var d := Decay(i);
    if now > Expiry(base, d) then d.(children := None) else d
  }

  function BucketIndex(t: int): (b: nat)
    ensures b < BUCKETS
  {
    var seconds := t / SECOND;
    var index := seconds - BUCKETS * Truncate(seconds, BUCKETS);
    if index < 0 then index + BUCKETS else index
  }

  lemma BucketIndexIsResidue(t: int)
    ensures BucketIndex(t) == (t / SECOND) % BUCKETS
  {
  }

  /** A past TTL stays past: decay only shortens it. */
  lemma ExpiredStays(base: int, a: nat, b: nat, last: int, now: int, later: int)
    requires b <= a && now <= later && last <= now && now > last + EffectiveTTL(base, a)
    ensures later > last + EffectiveTTL(base, b)
  {
    var m, n := if 2 + a > 40 then 40 else 2 + a, if 2 + b > 40 then 40 else 2 + b;
    if base >= 0 {
      MulMonotone(base, n, m);
    } else {
      MulMonotone(-base, 2, n);
      assert base * n == -((-base) * n);
    }
  }

  /** The TTL is the base times 1 + access / 2, at most times 20, less than a tick truncated. */
  lemma EffectiveTTLExact(base: int, access: nat)
    requires base >= 0
    ensures access <= 38 ==> base * (2 + access) - 2 < 2 * EffectiveTTL(base, access) <= base * (2 + access)
    ensures access >= 38 ==> EffectiveTTL(base, access) == 20 * base
  {
    MulMonotone(base, 0, 2 + access);
  }

  /** The TTL of a folder lies between the base and twenty times the base, and grows with its hits. */
  lemma EffectiveTTLBounds(base: int, a: nat, b: nat)
    requires base >= 0 && a <= b
    ensures base <= EffectiveTTL(base, a) <= EffectiveTTL(base, b) <= 20 * base
    ensures b >= 38 ==> EffectiveTTL(base, b) == 20 * base
  {
    var m, n := if 2 + a > 40 then 40 else 2 + a, if 2 + b > 40 then 40 else 2 + b;
    MulMonotone(base, 2, m);
    MulMonotone(base, m, n);
    MulMonotone(base, n, 40);
  }

  lemma MulMonotone(x: int, n: int, m: int)
    requires x >= 0 && n <= m
    ensures x * n <= x * m
  {
    assert x * m == x * n + x * (m - n);
  }

  // ---------------------------------------------------------------------------
  // The size-eviction heap
  // ---------------------------------------------------------------------------

  datatype HeapEntry = HeapEntry(id: Id, score: real, age: int, generation: nat)

  /** Not less: lowest score first, oldest age on ties. */
  predicate EntryLe(a: HeapEntry, b: HeapEntry) {
    if a.score == b.score then a.age <= b.age else a.score < b.score
  }

  lemma EntryOrder()
    ensures TotalPreorder(EntryLe)
  {
  }

  /** access / (minutes since the last access + 1). */
  function SizeScore(i: Inode, now: int): real {
    var minutes := (now - i.lastAccess) as real / (60 * SECOND) as real;
    if minutes + 1.0 == 0.0 then 0.0 else i.access as real / (minutes + 1.0)
  }

  /** The score is the accesses per minute of idling, one minute being added to the idle time. */
  lemma SizeScoreLaw(i: Inode, now: int)
    requires i.lastAccess <= now
    ensures SizeScore(i, now) * (now - i.lastAccess + 60 * SECOND) as real == i.access as real * (60 * SECOND) as real
  {
    var unit, idle := (60 * SECOND) as real, (now - i.lastAccess) as real;
    var minutes := idle / unit;
    assert minutes * unit == idle;
    assert (minutes + 1.0) * unit == idle + unit;
    var score := SizeScore(i, now);
    assert score * (minutes + 1.0) == i.access as real;
    assert score * (idle + unit) == score * (minutes + 1.0) * unit;
  }

  /** More accesses score higher, and longer idling scores lower. */
  lemma SizeScoreOrder(i: Inode, j: Inode, now: int)
    requires i.lastAccess <= now && j.lastAccess <= now
    requires (i.lastAccess == j.lastAccess && i.access < j.access) || (i.lastAccess < j.lastAccess && i.access == j.access > 0)
    ensures SizeScore(i, now) < SizeScore(j, now)
  {
    SizeScoreLaw(i, now);
    SizeScoreLaw(j, now);
    ScoresApart(SizeScore(i, now), SizeScore(j, now), (now - i.lastAccess + 60 * SECOND) as real,
                (now - j.lastAccess + 60 * SECOND) as real, i.access as real, j.access as real, (60 * SECOND) as real);
  }

  lemma ScoresApart(x: real, y: real, a: real, b: real, m: real, n: real, unit: real)
    requires x * a == m * unit && y * b == n * unit && a >= b > 0.0 && unit > 0.0
    requires (a == b && m < n) || (a > b && m == n && m > 0.0)
    ensures x < y
  {
    if a == b {
      assert (y - x) * a == (n - m) * unit > 0.0;
    } else {
      assert y * b > 0.0 && y > 0.0;
      assert y * (a - b) > 0.0;
      assert (y - x) * a == y * (a - b);
    }
  }

  // ---------------------------------------------------------------------------
  // State
  // ---------------------------------------------------------------------------

  datatype TtlEntry = TtlEntry(id: Id, expiry: int)

  datatype State = State(
    inodes: map<Id, Inode>,
    ring: seq<seq<TtlEntry>>,
    heap: seq<HeapEntry>,
    gen: map<Id, nat>,
    cached: int,
    evictions: nat,
    lastSweep: Option<int>)

  predicate ListedIn(s: State, id: Id) {
    id in s.inodes && Listed(s.inodes[id])
  }

  ghost function ListedIds(inodes: map<Id, Inode>): set<Id> {
    set id | id in inodes && Listed(inodes[id])
  }

  ghost predicate Mentions(entries: seq<TtlEntry>, id: Id) {
    exists k :: 0 <= k < |entries| && entries[k].id == id
  }

  /** Bucket `b` holds an entry of folder `id`. */
  ghost predicate At(ring: seq<seq<TtlEntry>>, b: nat, id: Id) {
    b < |ring| && Mentions(ring[b], id)
  }

  lemma MentionsAppend(entries: seq<TtlEntry>, e: TtlEntry, id: Id)
    ensures Mentions(entries + [e], id) <==> Mentions(entries, id) || e.id == id
  {
    if Mentions(entries, id) {
      var k :| 0 <= k < |entries| && entries[k].id == id;
      assert (entries + [e])[k].id == id;
    }
    assert (entries + [e])[|entries|] == e;
  }

  function Generation(gen: map<Id, nat>, id: Id): nat {
    if id in gen then gen[id] else 0
  }

  // ---------------------------------------------------------------------------
  // Mutators
  // ---------------------------------------------------------------------------

  /** registerTTL: files the folder under the bucket of its expiry. */
  function Register(base: int, ring: seq<seq<TtlEntry>>, id: Id, i: Inode): seq<seq<TtlEntry>> {
    var expiry := Expiry(base, i);
    var b := BucketIndex(expiry);
    if b < |ring| && Listed(i) then ring[b := ring[b] + [TtlEntry(id, expiry)]] else ring
  }

  /** updateEvictionEntry: a new generation, pushed with the current score. */
  function Rescore(s: State, id: Id, i: Inode, now: int): State {
    if !Listed(i) then s
    else
      var g := Generation(s.gen, id) + 1;
      s.(gen := s.gen[id := g],
         heap := Push(EntryLe, s.heap, HeapEntry(id, SizeScore(i, now), i.cachedAt, g)))
  }

  /** A folder that becomes or stays listed is filed in the ring and scored in the heap. */
  function Schedule(base: int, s: State, id: Id, i: Inode, now: int): State {
    Rescore(s.(ring := Register(base, s.ring, id, i)), id, i, now)
  }

  function Bump(i: Inode, now: int): Inode {
    i.(access := i.access + 1, lastAccess := now)
  }

  function SetChildren(i: Inode, ids: Option<seq<Id>>, now: int): Inode {
    i.(children := ids, cachedAt := now, lastAccess := now)
  }

  /** attachChild without the seeding of an unlisted folder. */
  function Attach(i: Inode, child: Id): Inode {
    if i.children.None? || child in i.children.value then i
    else i.(children := Some(i.children.value + [child]))
  }

  function Without(ids: seq<Id>, id: Id): seq<Id> {
    if ids == [] then [] else (if ids[0] == id then [] else [ids[0]]) + Without(ids[1..], id)
  }

  lemma {:induction false} WithoutMembers(ids: seq<Id>, id: Id)
    ensures forall x :: x in Without(ids, id) <==> x in ids && x != id
    decreases |ids|
  {
    if ids != [] {
      WithoutMembers(ids[1..], id);
      assert ids == [ids[0]] + ids[1..];
    }
  }

  /** detachChild: an unlisted folder stays unlisted, an emptied one stays listed. */
  function Detach(i: Inode, child: Id): Inode {
    if i.children.None? then i else i.(children := Some(Without(i.children.value, child)))
  }

  /** Attaching and detaching change a listing by that one child, and never whether it is a listing. */
  lemma ListingChanges(i: Inode, child: Id)
    ensures Listed(Attach(i, child)) == Listed(i) == Listed(Detach(i, child))
    ensures Listed(i) ==> forall x :: x in Attach(i, child).children.value <==> x in i.children.value || x == child
    ensures Listed(i) ==> forall x :: x in Detach(i, child).children.value <==> x in i.children.value && x != child
  {
    if Listed(i) {
      WithoutMembers(i.children.value, child);
    }
  }

  /** attachChild with seeding: an unlisted folder becomes listed with this one child. */
  function AttachOrSeed(base: int, s: State, parent: Id, child: Id, now: int): State {
    if parent !in s.inodes then s
    else if Listed(s.inodes[parent]) then s.(inodes := s.inodes[parent := Attach(s.inodes[parent], child)])
    else
      var seeded := s.inodes[parent].(children := Some([child]));
      Schedule(base, s.(inodes := s.inodes[parent := seeded], cached := s.cached + 1), parent, seeded, now)
  }

  /** The effect of one atomic call on the cache. Sweeps and size evictions are not mutators. */
  datatype Op =
    | Insert(id: Id, inode: Inode)
    | Delete(id: Id)
    | Hit(parent: Id)
    | Populate(parent: Id, items: seq<(Id, Inode)>)
    | Invalidate(parent: Id)
    | InsertChild(parent: Id, child: Id, inode: Inode)
    | RemoveChild(parent: Id, child: Id)
    | MoveChild(oldParent: Id, newParent: Id, child: Id)
    | MoveID(oldId: Id, newId: Id)
    | Restore(id: Id, inode: Inode)

  function StoreAll(inodes: map<Id, Inode>, items: seq<(Id, Inode)>, parent: Id): map<Id, Inode>
    decreases |items|
  {
    if items == [] then inodes
    else
      var (id, i) := items[0];
      StoreAll(inodes[id := if i.parent == "" then i.(parent := parent) else i], items[1..], parent)
  }

  function Ids(items: seq<(Id, Inode)>): seq<Id> {
    seq(|items|, k requires 0 <= k < |items| => items[k].0)
  }

  /**
   * getChildren after a successful fetch. The parent's object is looked up before the fetched items are
   * stored, so if the listing names the parent itself, the object that gets listed has been replaced.
   */
  function PopulateStep(base: int, s: State, parent: Id, items: seq<(Id, Inode)>, now: int): State {
    var known := parent in s.inodes;
    var folder := if known then s.inodes[parent] else Inode(None, 0, 0, 0, "");
    var stored := StoreAll(s.inodes, items, parent);
    var listed := Bump(SetChildren(folder, Some(Ids(items)), now), now);
    var inodes := if known && parent in Ids(items) then stored else stored[parent := listed];
    Schedule(base, s.(inodes := inodes, cached := if Listed(folder) then s.cached else s.cached + 1), parent, listed, now)
  }

  function Step(base: int, s: State, op: Op, now: int): State {
    match op
    case Insert(id, inode) =>
      var stored := s.(inodes := s.inodes[id := inode]);
      if inode.parent == "" then stored else AttachOrSeed(base, stored, inode.parent, id, now)
    case Delete(id) =>
      if id !in s.inodes then s
      else
        var p := s.inodes[id].parent;
        var detached := if p != "" && p in s.inodes then s.inodes[p := Detach(s.inodes[p], id)] else s.inodes;
        s.(inodes := detached - {id}, cached := if Listed(s.inodes[id]) then s.cached - 1 else s.cached)
    case Hit(parent) =>
      if !ListedIn(s, parent) || !IsFresh(base, s.inodes[parent], now) then s
      else
        var hit := Bump(s.inodes[parent], now);
        Schedule(base, s.(inodes := s.inodes[parent := hit]), parent, hit, now)
    case Populate(parent, items) =>
      PopulateStep(base, s, parent, items, now)
    case Invalidate(parent) =>
      if parent !in s.inodes then s
      else s.(inodes := s.inodes[parent := SetChildren(s.inodes[parent], None, now)],
              cached := if Listed(s.inodes[parent]) then s.cached - 1 else s.cached)
    case InsertChild(parent, child, inode) =>
      var stored := s.inodes[child := inode.(parent := parent)];
      s.(inodes := if parent in stored then stored[parent := Attach(stored[parent], child)] else stored)
    case RemoveChild(parent, child) =>
      if child !in s.inodes then s
      else
        var detached := if parent in s.inodes then s.inodes[parent := Detach(s.inodes[parent], child)] else s.inodes;
        s.(inodes := detached - {child})
    case MoveChild(oldParent, newParent, child) =>
      if child !in s.inodes then s
      else
        var detached := if oldParent in s.inodes then s.inodes[oldParent := Detach(s.inodes[oldParent], child)] else s.inodes;
        AttachOrSeed(base, s.(inodes := detached), newParent, child, now)
    case MoveID(oldId, newId) =>
      if oldId !in s.inodes then s
      else
        var p := s.inodes[oldId].parent;
        var moved := s.inodes[newId := s.inodes[oldId]] - {oldId};
        s.(inodes := if p != "" && p in moved then moved[p := Rename(moved[p], oldId, newId)] else moved)
    case Restore(id, inode) =>
      if id in s.inodes then s
      else
        var stored := s.(inodes := s.inodes[id := inode]);
        if Listed(inode) then Schedule(base, stored.(cached := s.cached + 1), id, inode, now) else stored
  }

  /** Freshness counts from when the children were fetched. */
  predicate IsFresh(base: int, i: Inode, now: int) {
    now - i.cachedAt < EffectiveTTL(base, i.access)
  }

  /** Replaces the first occurrence of an id in a folder's list. */
  function Rename(i: Inode, oldId: Id, newId: Id): Inode {
    if i.children.None? then i else i.(children := Some(ReplaceFirst(i.children.value, oldId, newId)))
  }

  function ReplaceFirst(ids: seq<Id>, oldId: Id, newId: Id): seq<Id> {
    if ids == [] then []
    else if ids[0] == oldId then [newId] + ids[1..]
    else [ids[0]] + ReplaceFirst(ids[1..], oldId, newId)
  }

  /** New inodes arrive unlisted. */
  ghost predicate BringsUnlisted(op: Op) {
    match op
    case Insert(_, inode) => !Listed(inode)
    case InsertChild(_, _, inode) => !Listed(inode)
    case Populate(_, items) => forall k :: 0 <= k < |items| ==> !Listed(items[k].1)
    case _ => true
  }

  /** The id of a listed folder changes. */
  predicate RekeysListed(s: State, op: Op) {
    op.MoveID? && ListedIn(s, op.oldId)
  }
}
