/** The inode cache's eviction code: bucket sweep, reference full scan, and size-limit pass. */
module InodeCache {
  import opened HeapOrder
  import opened InodeModel
  import opened Wrappers
  import opened InodeRuns
  import opened InodeSweep
  import opened InodeTheorems

  class Cache {
    const base: int
    const maxEntries: int
    var inodes: map<Id, Inode>
    var ring: seq<seq<TtlEntry>>
    var heap: seq<HeapEntry>
    var gen: map<Id, nat>
    var cached: int
    var evictions: nat
    var lastSweep: Option<int>

    ghost function S(): State
      reads this
    {
      State(inodes, ring, heap, gen, cached, evictions, lastSweep)
    }

    constructor (base: int, maxEntries: int)
      ensures Inv(S(), Entries) && this.base == base && this.maxEntries == maxEntries
      ensures S() == State(map[], seq(BUCKETS, _ => []), [], map[], 0, 0, None)
    {
      this.base, this.maxEntries := base, maxEntries;
      inodes, ring, heap, gen := map[], seq(BUCKETS, _ => []), [], map[];
      cached, evictions, lastSweep := 0, 0, None;
      new;
      EmptyInv(S());
    }

    // -------------------------------------------------------------------------
    // TTL eviction
    // -------------------------------------------------------------------------

    /** The scan that the ring replaced: every listed folder decays, and the expired ones are evicted. */
    method FullScan(now: int)
      modifies `inodes, `evictions, `cached
      ensures FullScanned(base, old(S()), S(), now)
    {
      ghost var before := inodes;
      ghost var done: set<Id> := {};
      var todo := inodes.Keys;
      ScanNone(base, before, now);
      hide ScanOn, EvictedBy;
      while todo != {}
        invariant todo <= before.Keys && done == before.Keys - todo
        invariant inodes == ScanOn(base, before, done, now)
        invariant evictions == old(evictions) + |EvictedBy(base, before, done, now)|
        invariant cached == old(cached) - |EvictedBy(base, before, done, now)|
        decreases |todo|
      {
        var id :| id in todo;
        todo := todo - {id};
        ScanFolder(id, now, before, done);
        done := done + {id};
      }
      assert done == before.Keys;
    }

    /** One folder of the scan. */
    method ScanFolder(id: Id, now: int, ghost before: map<Id, Inode>, ghost done: set<Id>)
      requires id in before && id !in done && inodes == ScanOn(base, before, done, now)
      modifies `inodes, `evictions, `cached
      ensures inodes == ScanOn(base, before, done + {id}, now)
      ensures var n := |EvictedBy(base, before, done + {id}, now)| - |EvictedBy(base, before, done, now)|;
              evictions == old(evictions) + n && cached == old(cached) - n
    {
      ScanUntouched(base, before, done, id, now);
      if Listed(inodes[id]) {
        ScanOneMore(base, before, done, id, now);
        hide ScanOn, EvictedBy;
        var inode := Decay(inodes[id]);
        if now > Expiry(base, inode) {
          inode := inode.(children := None);
          evictions, cached := evictions + 1, cached - 1;
        }
        inodes := inodes[id := inode];
      }
    }

    method ProcessEntry(entry: TtlEntry, now: int, processed: set<Id>,
                        ghost s: State, ghost ring0: seq<seq<TtlEntry>>, ghost before: set<Id>)
      returns (processed': set<Id>)
      requires MidBucket(base, s, S(), ring0, before, processed, now)
      modifies `inodes, `ring, `evictions, `cached
      ensures processed' == if ListedIn(s, entry.id) then processed + {entry.id} else processed
      ensures MidBucket(base, s, S(), ring0, before, processed', now)
    {
      processed' := processed;
      var id := entry.id;
      if id !in inodes || !Listed(inodes[id]) {
        return;
      }
      if id in processed {
        return;
      }
      MidBucketNext(base, s, S(), ring0, before, processed, now, id);
      processed' := processed + {id};
      var inode := Decay(inodes[id]);
      if now <= Expiry(base, inode) {
        inodes := inodes[id := inode];
        ring := Register(base, ring, id, inode);
      } else {
        inodes := inodes[id := inode.(children := None)];
        evictions, cached := evictions + 1, cached - 1;
      }
    }

    /** Empties the bucket that is `k`-th in the sweep order `bs` and processes its entries. */
    method SweepBucket(index: nat, now: int, processed: set<Id>, ghost s: State, ghost bs: seq<nat>, ghost k: nat)
      returns (processed': set<Id>)
      requires Distinct(bs) && k < |bs| && bs[k] == index
      requires SweptTo(base, s, S(), bs[..k], now) && processed == Visited(s, bs[..k])
      modifies `inodes, `ring, `evictions, `cached
      ensures SweptTo(base, s, S(), bs[..k + 1], now) && processed' == Visited(s, bs[..k + 1])
    {
      ghost var was := S();
      BroughtUp(base, s, ring, bs, k, now);
      BucketStart(base, s, was, bs, k, now);
      var entries := ring[index];
      ring := ring[index := []];
      hide MidBucket, SweptTo, Visited, Mentions;
      processed' := ProcessEntries(entries, now, processed, s);
      assert processed' == Visited(s, bs[..k + 1]);
      BucketDone(base, s, was, S(), bs, k, now);
    }

    method ProcessEntries(entries: seq<TtlEntry>, now: int, processed: set<Id>, ghost s: State)
      returns (processed': set<Id>)
      requires MidBucket(base, s, S(), ring, processed, processed, now)
      modifies `inodes, `ring, `evictions, `cached
      ensures MidBucket(base, s, S(), old(ring), processed, processed', now)
      ensures forall id :: id in processed' <==> id in processed || (ListedIn(s, id) && Mentions(entries, id))
    {
      hide MidBucket;
      processed' := processed;
      for j := 0 to |entries|
        invariant MidBucket(base, s, S(), old(ring), processed, processed', now)
        invariant forall id :: id in processed' <==> id in processed || (ListedIn(s, id) && Mentions(entries[..j], id))
      {
        OneMoreMention(entries, j);
        processed' := ProcessEntry(entries[j], now, processed', s, old(ring), processed);
      }
      assert entries[..|entries|] == entries;
    }

    /** Processes every bucket whose second has elapsed since the last sweep. */
    method SweepExpiredBuckets(now: int)
      requires |ring| == BUCKETS
      modifies `inodes, `ring, `evictions, `cached, `lastSweep
      ensures Swept(base, old(S()), S(), DueBuckets(old(lastSweep), now), now)
    {
      ghost var bs := DueBuckets(lastSweep, now);
      DueBucketsDistinct(lastSweep, now);
      hide SweptTo, Distinct;
      var start := if lastSweep.None? then now - SECOND else lastSweep.value;
      if now - start > BUCKETS * SECOND {
        SweepRing(now, bs);
      } else {
        SweepSince(start, now, bs);
      }
      lastSweep := Some(now);
    }

    /** Every bucket of the ring, when more than its width has passed. */
    method SweepRing(now: int, ghost bs: seq<nat>)
      requires |ring| == BUCKETS && Distinct(bs) && |bs| == BUCKETS && forall i :: 0 <= i < BUCKETS ==> bs[i] == i
      modifies `inodes, `ring, `evictions, `cached
      ensures SweptTo(base, old(S()), S(), bs, now)
    {
      ghost var s := S();
      NothingSwept(base, s, now);
      hide SweptTo, Visited, Distinct;
      var processed: set<Id> := {};
      assert bs[..0] == [];
      for i := 0 to BUCKETS
        invariant SweptTo(base, s, S(), bs[..i], now) && processed == Visited(s, bs[..i])
      {
        processed := SweepBucket(i, now, processed, s, bs, i);
      }
      assert bs[..BUCKETS] == bs;
    }

    /** One bucket for each full second since `start`. */
    method SweepSince(start: int, now: int, ghost bs: seq<nat>)
      requires |ring| == BUCKETS && Distinct(bs) && |bs| == if now < start then 0 else (now - start) / SECOND
      requires forall k :: 0 <= k < |bs| ==> bs[k] == BucketIndex(start + (k + 1) * SECOND)
      modifies `inodes, `ring, `evictions, `cached
      ensures SweptTo(base, old(S()), S(), bs, now)
    {
      ghost var s := S();
      NothingSwept(base, s, now);
      hide SweptTo, Visited, Distinct, BucketIndex;
      var processed: set<Id> := {};
      assert bs[..0] == [];
      var t := start + SECOND;
      ghost var k: nat := 0;
      while t <= now
        invariant t == start + (k + 1) * SECOND && k <= |bs|
        invariant SweptTo(base, s, S(), bs[..k], now) && processed == Visited(s, bs[..k])
        decreases now - t
      {
        assert k < (now - start) / SECOND;
        processed := SweepBucket(BucketIndex(t), now, processed, s, bs, k);
        t := t + SECOND;
        k := k + 1;
      }
      assert k == |bs|;
      assert bs[..|bs|] == bs;
    }

    // -------------------------------------------------------------------------
    // Size-limit eviction
    // -------------------------------------------------------------------------

    /**
     * Pops dead slots until a live one comes up; that one is least among the live ones, and is handed
     * out only if its folder has been idle long enough.
     */
    method PopEvictable(now: int) returns (r: Option<HeapEntry>)
      requires SlotsOk(S())
      modifies `heap
      ensures SlotsOk(S())
      ensures forall e :: Live(old(S()), e) && r != Some(e) ==> e in heap
      ensures r.Some? ==> LeastLive(old(S()), r.value) && Idle(inodes[r.value.id], now) && r.value !in heap
      ensures r.None? ==> NoVictim(S(), now)
      ensures forall e :: e in heap ==> e in old(heap)
    {
      ghost var s := S();
      hide SlotsOk, EntryLe, Push, Rest;
      while |heap| > 0
        invariant SlotsOk(S())
        invariant forall e :: Live(s, e) ==> e in heap
        invariant forall e :: e in heap ==> e in s.heap
        decreases |heap|
      {
        PopSlots(S());
        var entry := heap[0];
        heap := Rest(EntryLe, heap);
        if entry.generation == Generation(gen, entry.id) && entry.id in inodes && Listed(inodes[entry.id]) {
          assert Live(s, entry);
          if !Idle(inodes[entry.id], now) {
            PutBack(entry, s);
            return None;
          }
          return Some(entry);
        }
      }
      assert forall e :: !Live(S(), e);
      return None;
    }

    /** A popped slot whose folder is still in its grace goes back. */
    method PutBack(entry: HeapEntry, ghost s: State)
      requires SlotsOk(S()) && S() == s.(heap := heap) && LeastLive(s, entry)
      requires forall x :: x in heap ==> x in s.heap && (x.id == entry.id ==> x.generation != entry.generation)
      modifies `heap
      ensures SlotsOk(S()) && LeastLive(S(), entry)
      ensures forall x :: x in heap <==> x in old(heap) || x == entry
    {
      hide SlotsOk, EntryLe, Push;
      PushBack(S(), entry);
      heap := Push(EntryLe, heap, entry);
      assert forall x :: Live(S(), x) ==> Live(s, x);
    }

    method EvictCandidate(now: int, ghost s: State) returns (ok: bool)
      requires Inv(S(), Counts) && OnlyIdleEvicted(s, S(), now) && SlotsOk(s) && LowestFirst(s, S()) && LiveKept(s, S())
      modifies `heap, `inodes, `cached, `evictions
      ensures Inv(S(), Counts) && Preserves(old(S()), S()) && OnlyIdleEvicted(s, S(), now)
      ensures LowestFirst(s, S()) && LiveKept(s, S())
      ensures cached == old(cached) - (if ok then 1 else 0)
      ensures !ok ==> NoVictim(S(), now)
    {
      ghost var before := S();
      hide SlotsOk, LeastLive, NoVictim, InvBut, OnlyIdleEvicted, LowestFirst, LiveKept;
      SlotsOfInv(before, Counts);
      var candidate := PopEvictable(now);
      if candidate.None? {
        LowestSame(s, before, S());
        DropAll(before, S());
        SizePassMore(s, before, S(), now);
        return false;
      }
      var id := candidate.value.id;
      LeastIsListed(before, candidate.value);
      Unlist(id);
      EvictAll(before, S(), candidate.value);
      LowestNext(s, before, S(), candidate.value);
      OneMoreEvicted(s, before, S(), now, id);
      return true;
    }

    /** EvictChildren, with both counters. */
    method Unlist(id: Id)
      requires id in inodes && SlotsOk(S())
      modifies `inodes, `cached, `evictions
      ensures S() == old(S()).(inodes := old(inodes)[id := old(inodes)[id].(children := None)],
                               cached := old(cached) - 1, evictions := old(evictions) + 1)
      ensures SlotsOk(S())
    {
      hide SlotsOk;
      ghost var s := S();
      inodes := inodes[id := inodes[id].(children := None)];
      evictions, cached := evictions + 1, cached - 1;
      SlotsFrame(s, S());
    }

    /**
     * A size-limit pass: only folders idle for the whole grace are evicted, the lowest scores first, at
     * most the excess, and it ends within the limit or with nothing left that may be evicted.
     */
    method EvictBySizeLimit(now: int) returns (n: nat)
      requires Inv(S(), Counts)
      modifies `heap, `inodes, `cached, `evictions
      ensures Inv(S(), Counts) && Preserves(old(S()), S()) && OnlyIdleEvicted(old(S()), S(), now) && cached == old(cached) - n
      ensures LowestFirst(old(S()), S())
      ensures maxEntries <= 0 ==> n == 0
      ensures maxEntries > 0 ==> n <= Excess(old(cached)) && (cached <= maxEntries || NoVictim(S(), now))
    {
      n := 0;
      ghost var s := S();
      NoneEvicted(s, now);
      LowestNone(s);
      if maxEntries <= 0 || cached <= maxEntries {
        return;
      }
      SlotsOfInv(s, Counts);
      hide InvBut, NoVictim, OnlyIdleEvicted, SlotsOk, LowestFirst, LiveKept;
      var toRemove := cached - maxEntries;
      while n < toRemove
        invariant 0 <= n <= toRemove && Inv(S(), Counts) && Preserves(s, S())
        invariant OnlyIdleEvicted(s, S(), now) && cached == s.cached - n && LowestFirst(s, S()) && LiveKept(s, S())
      {
        var ok := EvictCandidate(now, s);
        if !ok {
          return;
        }
        n := n + 1;
      }
    }

    function Excess(count: int): nat {
      if count <= maxEntries then 0 else count - maxEntries
    }

    // -------------------------------------------------------------------------
    // Runs
    // -------------------------------------------------------------------------

    method Apply(op: Op, now: int)
      requires Inv(S(), Counts) && BringsUnlisted(op)
      modifies this
      ensures S() == Step(base, old(S()), op, now) && Inv(S(), Counts)
      ensures forall claim :: old(Inv(S(), claim)) ==> (Inv(S(), claim) <==> KeepsClaim(old(S()), op, claim))
    {
      hide Step, InvBut, BringsUnlisted;
      ghost var s := S();
      var r := Step(base, State(inodes, ring, heap, gen, cached, evictions, lastSweep), op, now);
      inodes, ring, heap, gen := r.inodes, r.ring, r.heap, r.gen;
      cached, evictions, lastSweep := r.cached, r.evictions, r.lastSweep;
      forall claim | Inv(s, claim)
        ensures Inv(S(), claim) <==> KeepsClaim(s, op, claim)
      {
        StepInv(base, s, op, now, claim);
      }
    }

    /** A sweep at any time; one that comes in time keeps every listed folder in the ring. */
    method SweepDue(now: int)
      requires Inv(S(), Counts)
      modifies `inodes, `ring, `evictions, `cached, `lastSweep
      ensures Swept(base, old(S()), S(), DueBuckets(old(lastSweep), now), now) && Inv(S(), Counts)
      ensures forall claim :: old(Inv(S(), claim)) && EventKeeps(old(S()), Tick(now), claim) ==> Inv(S(), claim)
    {
      ghost var s := S();
      hide Swept, DueBuckets, Timely;
      SweepExpiredBuckets(now);
      forall claim | Inv(s, claim) && EventKeeps(s, Tick(now), claim)
        ensures Inv(S(), claim)
      {
        SweptClaim(base, s, S(), now, claim);
      }
    }

    /** One turn of the sweep goroutine: the sweep, then the size limit. */
    method Sweep(now: int)
      requires Inv(S(), Counts)
      modifies this
      ensures TickStep(base, old(S()), S(), now) && Inv(S(), Counts)
      ensures maxEntries > 0 ==> cached <= maxEntries || NoVictim(S(), now)
      ensures forall claim :: old(Inv(S(), claim)) && EventKeeps(old(S()), Tick(now), claim) ==> Inv(S(), claim)
    {
      hide Swept, OnlyIdleEvicted, InvBut, TickStep, DueBuckets, NoVictim, EventKeeps;
      ghost var s := S();
      SweepDue(now);
      ghost var m := S();
      var _ := EvictBySizeLimit(now);
      TickDone(base, s, m, S(), now);
    }
  }

  /**
   * Whatever mutators are called and whenever the sweeps come, the slots stay in order and no listed
   * folder goes uncounted. While no listed folder is re-keyed to an id without a slot, every listed
   * folder has exactly one live slot; while, moreover, each sweep comes less than two seconds after
   * the one before, every listed folder has a ring entry.
   */
  method Run(c: Cache, events: seq<Event>) returns (ghost run: seq<State>)
    requires Inv(c.S(), Counts) && forall k :: 0 <= k < |events| && events[k].Mutate? ==> BringsUnlisted(events[k].op)
    modifies c
    ensures IsRun(c.base, run, events) && run[0] == old(c.S()) && run[|events|] == c.S()
    ensures forall k :: 0 <= k <= |events| ==> Inv(run[k], Counts)
    ensures forall claim, k :: 0 <= k <= |events| && old(Inv(c.S(), claim)) && RunKeeps(run, events, claim) ==> Inv(run[k], claim)
  {
    hide EventStep, InvBut, EventKeeps, BringsUnlisted;
    run := [c.S()];
    for k := 0 to |events|
      invariant |run| == k + 1 && run[0] == old(c.S()) && run[k] == c.S()
      invariant forall j :: 0 <= j < k ==> EventStep(c.base, run[j], events[j], run[j + 1])
      invariant forall j :: 0 <= j < k ==> Kept(run[j], events[j], run[j + 1])
      invariant forall j :: 0 <= j <= k ==> Inv(run[j], Counts)
    {
      Advance(c, events[k]);
      run := run + [c.S()];
    }
    forall claim, k | 0 <= k <= |events| && Inv(run[0], claim) && RunKeeps(run, events, claim)
      ensures Inv(run[k], claim)
    {
      KeptThroughout(run, events, claim, k);
    }
  }

  /** A step keeps every claim that it finds kept. */
  ghost predicate Kept(s: State, e: Event, r: State) {
    forall claim :: Inv(s, claim) && EventKeeps(s, e, claim) ==> Inv(r, claim)
  }

  lemma {:induction false} KeptThroughout(run: seq<State>, events: seq<Event>, claim: Claim, k: nat)
    requires |run| == |events| + 1 && k <= |events| && Inv(run[0], claim) && RunKeeps(run, events, claim)
    requires forall j :: 0 <= j < |events| ==> Kept(run[j], events[j], run[j + 1])
    ensures Inv(run[k], claim)
    decreases k
  {
    hide EventKeeps, InvBut;
    if k > 0 {
      KeptThroughout(run, events, claim, k - 1);
      assert Kept(run[k - 1], events[k - 1], run[k - 1 + 1]);
    }
  }

  method Advance(c: Cache, e: Event)
    requires Inv(c.S(), Counts) && (e.Mutate? ==> BringsUnlisted(e.op))
    modifies c
    ensures Inv(c.S(), Counts) && Kept(old(c.S()), e, c.S()) && EventStep(c.base, old(c.S()), e, c.S())
  {
    hide Step, TickStep, Timely, KeepsClaim;
    match e
    case Mutate(op, now) => c.Apply(op, now);
    case Tick(now) => c.Sweep(now);
  }

  /**
   * A sweep that comes a minute late can drop a fresh folder from the ring for good: filed under
   * second 0, it is decayed there, re-filed under second 40, and thrown away when that bucket is
   * emptied later in the same sweep.
   */
  method LateSweepLosesFolder() returns (c: Cache)
    ensures fresh(c) && ListedIn(c.S(), "f") && !HasEntry(c.S().ring, "f")
  {
    c := new Cache(40 * SECOND, 100);
    c.SweepDue(-30 * SECOND);
    ghost var s1 := c.S();
    c.Apply(Populate("f", []), 0);
    ghost var s2 := c.S();
    PopulatedFolder(c.base, s1);
    hide PopulateStep, Step, Swept;
    c.SweepExpiredBuckets(31 * SECOND);
    DroppedFolder(c.base, s2, c.S());
  }

  /** A folder populated at time 0 under a base TTL of 40 seconds is filed under second 60. */
  lemma PopulatedFolder(base: int, s: State)
    requires base == 40 * SECOND && |s.ring| == BUCKETS && s.inodes == map[]
    ensures var r := PopulateStep(base, s, "f", [], 0);
            ListedIn(r, "f") && r.inodes["f"].access == 1 && r.inodes["f"].lastAccess == 0 && At(r.ring, 0, "f")
            && r.lastSweep == s.lastSweep
  {
    var listed := Bump(SetChildren(Inode(None, 0, 0, 0, ""), Some(Ids([])), 0), 0);
    RegisterEffect(base, s.ring, "f", listed);
    assert EffectiveTTL(base, 1) == 60 * SECOND;
    BucketIndexIsResidue(60 * SECOND);
  }

  lemma DroppedFolder(base: int, s: State, r: State)
    requires base == 40 * SECOND && |s.ring| == BUCKETS && s.lastSweep == Some(-30 * SECOND)
    requires ListedIn(s, "f") && s.inodes["f"].access == 1 && s.inodes["f"].lastAccess == 0 && At(s.ring, 0, "f")
    requires Swept(base, s, r, DueBuckets(s.lastSweep, 31 * SECOND), 31 * SECOND)
    ensures ListedIn(r, "f") && !HasEntry(r.ring, "f")
  {
    hide Swept;
    assert EffectiveTTL(base, 0) == 40 * SECOND;
    BucketIndexIsResidue(40 * SECOND);
    WholeRing(s.ring, DueBuckets(s.lastSweep, 31 * SECOND), "f");
    LateSweepLosesIff(base, s, r, 31 * SECOND, "f");
    assert BucketIndex(Expiry(base, ScanOne(base, s.inodes["f"], 31 * SECOND))) == 40;
  }

  /**
   * Two seconds are too late already: filed under second 1 alone, a folder is decayed there, re-filed
   * under second 2, and thrown away when that bucket is emptied later in the same sweep.
   */
  method TwoSecondGapLosesFolder() returns (c: Cache)
    ensures fresh(c) && c.lastSweep == Some(2 * SECOND) && ListedIn(c.S(), "f") && !HasEntry(c.S().ring, "f")
  {
    c := new Cache(118 * SECOND, 100);
    hide Step, Swept, DueBuckets, InvBut, FiledUnderOne, EventKeeps, KeepsClaim;
    ghost var s0 := c.S();
    WeakerClaim(s0, Entries);
    c.Apply(Populate("f", []), HALF_PAST);
    LonelyFolder(c.base, s0);
    ghost var s1 := c.S();
    c.SweepDue(0);
    ghost var s2 := c.S();
    FirstSweepPasses(c.base, s1, s2);
    c.SweepDue(2 * SECOND);
    TwoBuckets(c.base, s2, c.S());
  }

  /** 115.5 seconds before time 0. */
  const HALF_PAST := -115_500_000_000

  /** Folder `f`, last accessed 115.5 seconds before time 0, is filed under second 1 and nowhere else. */
  ghost predicate FiledUnderOne(s: State) {
    && |s.ring| == BUCKETS && ListedIn(s, "f")
    && s.inodes["f"].access == 1 && s.inodes["f"].lastAccess == HALF_PAST
    && forall b :: 0 <= b < BUCKETS ==> (At(s.ring, b, "f") <==> b == 1)
  }

  lemma LonelyFolder(base: int, s: State)
    requires base == 118 * SECOND && s == State(map[], seq(BUCKETS, _ => []), [], map[], 0, 0, None)
    ensures var r := Step(base, s, Populate("f", []), HALF_PAST);
            FiledUnderOne(r) && r.lastSweep == None
  {
    var listed := Bump(SetChildren(Inode(None, 0, 0, 0, ""), Some(Ids([])), HALF_PAST), HALF_PAST);
    assert EffectiveTTL(base, 1) == 177 * SECOND;
    BucketIndexIsResidue(HALF_PAST + 177 * SECOND);
    assert BucketIndex(Expiry(base, listed)) == 1;
    hide EffectiveTTL, BucketIndex, SizeScore;
    RegisterEffect(base, s.ring, "f", listed);
    hide Register, At;
    assert forall b :: 0 <= b < BUCKETS ==> !At(s.ring, b, "f") by {
      NoEntries(s.ring, "f");
    }
  }

  lemma NoEntries(ring: seq<seq<TtlEntry>>, id: Id)
    requires forall b :: 0 <= b < |ring| ==> ring[b] == []
    ensures forall b :: 0 <= b < |ring| ==> !At(ring, b, id)
  {
  }

  lemma FirstSweepPasses(base: int, s: State, r: State)
    requires FiledUnderOne(s) && s.lastSweep == None && Swept(base, s, r, DueBuckets(None, 0), 0)
    ensures FiledUnderOne(r) && r.lastSweep == Some(0)
  {
    OneSecondLater(0);
    BucketIndexIsResidue(0);
    SweepPasses(base, s, r, [0], 0, "f");
  }

  lemma TwoBuckets(base: int, s: State, r: State)
    requires base == 118 * SECOND && FiledUnderOne(s) && s.lastSweep == Some(0)
    requires Swept(base, s, r, DueBuckets(Some(0), 2 * SECOND), 2 * SECOND)
    ensures r.lastSweep == Some(2 * SECOND) && ListedIn(r, "f") && !HasEntry(r.ring, "f")
  {
    SecondsOneAndTwo();
    StillFresh(base, s.inodes["f"]);
    var bs := [1, 2];
    assert bs[0] == 1 && bs[..1] == [1] && bs[..1][0] == 1;
    hide DueBuckets, ScanOne, BucketIndex, EffectiveTTL;
    assert InSome(s.ring, bs, "f") && InSome(s.ring, bs[..1], "f");
    KeepsEntryIff(base, s, r, bs, 2 * SECOND, "f");
    assert r.inodes["f"] == ScanOne(base, s.inodes["f"], 2 * SECOND);
  }

  lemma SecondsOneAndTwo()
    ensures DueBuckets(Some(0), 2 * SECOND) == [1, 2]
  {
    BucketIndexIsResidue(SECOND);
    BucketIndexIsResidue(2 * SECOND);
  }

  /** Decayed, the folder has a deadline half a second after the sweep. */
  lemma StillFresh(base: int, i: Inode)
    requires base == 118 * SECOND && Listed(i) && i.access == 1 && i.lastAccess == HALF_PAST
    ensures var after := ScanOne(base, i, 2 * SECOND); Listed(after) && BucketIndex(Expiry(base, after)) == 2
  {
    assert EffectiveTTL(base, 0) == 118 * SECOND;
    BucketIndexIsResidue(HALF_PAST + 118 * SECOND);
  }
}
