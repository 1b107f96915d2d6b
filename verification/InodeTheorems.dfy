/** Parity of the bucket sweep with the full scan, and what repeated sweeps guarantee. */
module InodeTheorems {
  import opened InodeModel
  import opened Wrappers
  import opened InodeRuns
  import opened InodeSweep

  // ---------------------------------------------------------------------------
  // Against the full scan
  // ---------------------------------------------------------------------------

  /** Whatever the ring holds, a sweep evicts only folders that the full scan would evict. */
  lemma SweepWithinFullScan(base: int, s: State, r: State, full: State, bs: seq<nat>, now: int, id: Id)
    requires Swept(base, s, r, bs, now) && FullScanned(base, s, full, now) && id in s.inodes
    ensures id in r.inodes && id in full.inodes
    ensures r.inodes[id] == if id in Visited(s, bs) then full.inodes[id] else s.inodes[id]
    ensures ListedIn(s, id) && !ListedIn(r, id) ==> !ListedIn(full, id)
  {
  }

  /** A folder after its turn: half the accesses, and no listing if the TTL of so many has passed. */
  ghost predicate Aged(base: int, i: Inode, r: Inode, now: int) {
    var left := i.access / 2;
    r == i.(access := left, children := if now > i.lastAccess + EffectiveTTL(base, left) then None else i.children)
  }

  /** As many evictions as folders lost their listing, all counted. */
  ghost predicate CountsEvictions(s: State, r: State) {
    r.evictions - s.evictions == s.cached - r.cached == |ListedIds(s.inodes)| - |ListedIds(r.inodes)|
  }

  /** The full scan ages every listed folder once and leaves the others alone. */
  lemma FullScanEffect(base: int, s: State, r: State, now: int)
    requires FullScanned(base, s, r, now)
    ensures r.inodes.Keys == s.inodes.Keys && CountsEvictions(s, r)
    ensures forall id :: id in s.inodes ==>
              if Listed(s.inodes[id]) then Aged(base, s.inodes[id], r.inodes[id], now) else r.inodes[id] == s.inodes[id]
  {
    ScanCounts(base, s.inodes, s.inodes.Keys, now);
  }

  /** A sweep ages once every listed folder with an entry in its buckets, and leaves the others alone. */
  lemma SweepEffect(base: int, s: State, r: State, bs: seq<nat>, now: int)
    requires Swept(base, s, r, bs, now)
    ensures r.inodes.Keys == s.inodes.Keys && CountsEvictions(s, r) && r.heap == s.heap && r.gen == s.gen
    ensures forall id :: id in s.inodes ==>
              if Listed(s.inodes[id]) && InSome(s.ring, bs, id) then Aged(base, s.inodes[id], r.inodes[id], now)
              else r.inodes[id] == s.inodes[id]
  {
    ScanCounts(base, s.inodes, Visited(s, bs), now);
  }

  lemma ScanCounts(base: int, inodes: map<Id, Inode>, vis: set<Id>, now: int)
    ensures |ListedIds(inodes)| - |ListedIds(ScanOn(base, inodes, vis, now))| == |EvictedBy(base, inodes, vis, now)|
  {
    var gone := EvictedBy(base, inodes, vis, now);
    assert gone <= ListedIds(inodes);
    assert ListedIds(ScanOn(base, inodes, vis, now)) == ListedIds(inodes) - gone;
  }

  /** A sweep takes a folder's children exactly if it visits it after its decayed TTL has passed. */
  lemma SweepEvictsIff(base: int, s: State, r: State, bs: seq<nat>, now: int, id: Id)
    requires Swept(base, s, r, bs, now) && ListedIn(s, id)
    ensures !ListedIn(r, id) <==>
            InSome(s.ring, bs, id) && now > s.inodes[id].lastAccess + EffectiveTTL(base, s.inodes[id].access / 2)
    ensures ListedIn(r, id) ==> r.inodes[id].children == s.inodes[id].children
  {
  }

  /** A folder accessed within the base TTL survives every sweep. */
  lemma RecentFolderSurvives(base: int, s: State, r: State, bs: seq<nat>, now: int, id: Id)
    requires Swept(base, s, r, bs, now) && ListedIn(s, id) && base >= 0 && now <= s.inodes[id].lastAccess + base
    ensures ListedIn(r, id)
  {
    EffectiveTTLBounds(base, s.inodes[id].access / 2, s.inodes[id].access);
    SweepEvictsIff(base, s, r, bs, now, id);
  }

  /**
   * A hit or a population shields the folder from size eviction for the whole grace and scores above
   * zero. Only a population whose listing names the known folder itself leaves it unlisted.
   */
  lemma AccessShields(base: int, s: State, op: Op, now: int, later: int)
    requires op.Populate? || (op.Hit? && ListedIn(s, op.parent) && IsFresh(base, s.inodes[op.parent], now))
    requires BringsUnlisted(op) && now <= later < now + 5 * SECOND
    ensures var r := Step(base, s, op, now);
            && (ListedIn(r, op.parent) <==> !(op.Populate? && op.parent in s.inodes && op.parent in Ids(op.items)))
            && (ListedIn(r, op.parent) ==>
                  !Idle(r.inodes[op.parent], later) && SizeScore(r.inodes[op.parent], now) >= 1.0)
  {
    hide Schedule;
    ScheduleKeeps(base, now);
    if op.Populate? && op.parent in Ids(op.items) {
      StoredUnlisted(s.inodes, op.items, op.parent, op.parent);
    }
  }

  /** A fetched item replaces whatever was cached under its id. */
  lemma {:induction false} StoredUnlisted(inodes: map<Id, Inode>, items: seq<(Id, Inode)>, parent: Id, id: Id)
    requires forall k :: 0 <= k < |items| ==> !Listed(items[k].1)
    ensures var r := StoreAll(inodes, items, parent);
            && (id in Ids(items) ==> id in r && !Listed(r[id]))
            && (id in inodes && !Listed(inodes[id]) ==> id in r && !Listed(r[id]))
    decreases |items|
  {
    if items != [] {
      var (x, i) := items[0];
      StoredUnlisted(inodes[x := if i.parent == "" then i.(parent := parent) else i], items[1..], parent, id);
      assert Ids(items) == [x] + Ids(items[1..]);
    }
  }

  lemma ScheduleKeeps(base: int, now: int)
    ensures forall s: State, id, i :: Schedule(base, s, id, i, now).inodes == s.inodes
  {
  }

  lemma WholeRing(ring: seq<seq<TtlEntry>>, bs: seq<nat>, id: Id)
    requires |ring| == |bs| == BUCKETS && forall b :: 0 <= b < BUCKETS ==> bs[b] == b
    ensures InSome(ring, bs, id) <==> HasEntry(ring, id)
  {
    if HasEntry(ring, id) {
      var b :| 0 <= b < |ring| && At(ring, b, id);
      assert At(ring, bs[b], id);
    }
  }

  /**
   * A sweep that comes more than a ring's width late equals the full scan exactly when every listed
   * folder missing from the ring is one that the scan would leave as it is.
   */
  lemma LateSweepIsFullScanIff(base: int, s: State, r: State, now: int)
    requires s.lastSweep.Some? && now - s.lastSweep.value > BUCKETS * SECOND && |s.ring| == BUCKETS
    requires Swept(base, s, r, DueBuckets(s.lastSweep, now), now)
    ensures FullScanned(base, s, r.(ring := s.ring, lastSweep := s.lastSweep), now) <==>
            forall id :: ListedIn(s, id) && !HasEntry(s.ring, id) ==> ScanOne(base, s.inodes[id], now) == s.inodes[id]
  {
    var bs := DueBuckets(s.lastSweep, now);
    var all, vis := s.inodes.Keys, Visited(s, bs);
    forall id
      ensures InSome(s.ring, bs, id) <==> HasEntry(s.ring, id)
    {
      WholeRing(s.ring, bs, id);
    }
    var swept, scanned := ScanOn(base, s.inodes, vis, now), ScanOn(base, s.inodes, all, now);
    if forall id :: ListedIn(s, id) && !HasEntry(s.ring, id) ==> ScanOne(base, s.inodes[id], now) == s.inodes[id] {
      forall id | id in s.inodes
        ensures swept[id] == scanned[id]
        ensures id in EvictedBy(base, s.inodes, vis, now) <==> id in EvictedBy(base, s.inodes, all, now)
      {
        assert ListedIn(s, id) <==> Listed(s.inodes[id]);
      }
      assert swept == scanned;
      assert EvictedBy(base, s.inodes, vis, now) == EvictedBy(base, s.inodes, all, now);
    }
    if swept == scanned {
      forall id | ListedIn(s, id) && !HasEntry(s.ring, id)
        ensures ScanOne(base, s.inodes[id], now) == s.inodes[id]
      {
        assert swept[id] == s.inodes[id] && scanned[id] == ScanOne(base, s.inodes[id], now);
      }
    }
  }

  /** In particular it equals the full scan whenever every listed folder has a ring entry. */
  lemma LateSweepIsFullScan(base: int, s: State, r: State, now: int)
    requires s.lastSweep.Some? && now - s.lastSweep.value > BUCKETS * SECOND && Inv(s, Entries)
    requires Swept(base, s, r, DueBuckets(s.lastSweep, now), now)
    ensures FullScanned(base, s, r.(ring := s.ring, lastSweep := s.lastSweep), now)
  {
    LateSweepIsFullScanIff(base, s, r, now);
  }

  /** A visited folder that its scan leaves listed keeps a ring entry under exactly these conditions. */
  lemma KeepsEntryIff(base: int, s: State, r: State, bs: seq<nat>, now: int, id: Id)
    requires Swept(base, s, r, bs, now) && id in Visited(s, bs) && |s.ring| == BUCKETS
    ensures var after := ScanOne(base, s.inodes[id], now);
            var b := BucketIndex(Expiry(base, after));
            Listed(after) ==>
              (HasEntry(r.ring, id) <==>
               b !in bs || EmptiedBefore(s.ring, bs, b, id) || exists c :: 0 <= c < BUCKETS && c !in bs && At(s.ring, c, id))
  {
    var after := ScanOne(base, s.inodes[id], now);
    var b := BucketIndex(Expiry(base, after));
    assert ListedIn(s, id);
    assert At(r.ring, b, id) <==> FiledAfter(base, s, bs, now, b, id);
    if HasEntry(r.ring, id) {
      var c :| 0 <= c < |r.ring| && At(r.ring, c, id);
      assert FiledAfter(base, s, bs, now, c, id);
    }
    if c :| 0 <= c < BUCKETS && c !in bs && At(s.ring, c, id) {
      assert FiledAfter(base, s, bs, now, c, id);
      assert At(r.ring, c, id);
    }
  }

  /**
   * A late sweep leaves a folder listed and lost to the ring exactly if its decayed TTL has not passed
   * and some bucket before that of its new deadline held it.
   */
  lemma LateSweepLosesIff(base: int, s: State, r: State, now: int, id: Id)
    requires s.lastSweep.Some? && now - s.lastSweep.value > BUCKETS * SECOND && |s.ring| == BUCKETS
    requires Swept(base, s, r, DueBuckets(s.lastSweep, now), now)
    requires HasEntry(s.ring, id) && ListedIn(s, id)
    ensures var after := ScanOne(base, s.inodes[id], now);
            ListedIn(r, id) && !HasEntry(r.ring, id) <==>
            Listed(after) && exists c :: 0 <= c < BucketIndex(Expiry(base, after)) && At(s.ring, c, id)
  {
    var bs := DueBuckets(s.lastSweep, now);
    WholeRing(s.ring, bs, id);
    KeepsEntryIff(base, s, r, bs, now, id);
    EmptiedInWholeRing(s.ring, bs, BucketIndex(Expiry(base, ScanOne(base, s.inodes[id], now))), id);
  }

  lemma EmptiedInWholeRing(ring: seq<seq<TtlEntry>>, bs: seq<nat>, b: nat, id: Id)
    requires |bs| == BUCKETS && b < BUCKETS && forall c :: 0 <= c < BUCKETS ==> bs[c] == c
    ensures forall c :: 0 <= c < BUCKETS ==> c in bs
    ensures EmptiedBefore(ring, bs, b, id) <==> forall c :: 0 <= c < b ==> !At(ring, c, id)
  {
    forall c | 0 <= c < BUCKETS
      ensures c in bs
    {
      assert bs[c] == c;
    }
    assert forall c :: 0 <= c < b ==> bs[..b][c] == c;
    assert InSome(ring, bs[..b], id) <==> exists c :: 0 <= c < b && At(ring, c, id) by {
      if c :| 0 <= c < b && At(ring, c, id) {
        assert At(ring, bs[..b][c], id);
      }
    }
    assert bs[b] == b;
  }

  // ---------------------------------------------------------------------------
  // Sweeps in time
  // ---------------------------------------------------------------------------

  lemma OneSecondLater(t: int)
    ensures DueBuckets(Some(t), t + SECOND) == [BucketIndex(t + SECOND)]
    ensures DueBuckets(None, t) == [BucketIndex(t)]
  {
  }

  /** Bucket `b` is that of the `k`-th full second after `last`. */
  predicate SecondsOn(last: int, k: int, b: nat) {
    b == (last / SECOND + k) % BUCKETS
  }

  /** What is due, for any elapsed time: the buckets of the full seconds since the last sweep, or all of them. */
  lemma DueExactly(last: Option<int>, now: int, b: nat)
    requires b < BUCKETS
    ensures last.None? ==> (b in DueBuckets(last, now) <==> b == now / SECOND % BUCKETS)
    ensures last.Some? && now - last.value > 60 * SECOND ==> b in DueBuckets(last, now)
    ensures last.Some? && now - last.value <= 60 * SECOND ==>
              (b in DueBuckets(last, now) <==> exists k :: 1 <= k <= (now - last.value) / SECOND && SecondsOn(last.value, k, b))
  {
    var bs := DueBuckets(last, now);
    if last.None? {
      OneSecondLater(now);
      BucketIndexIsResidue(now);
    } else if now - last.value > BUCKETS * SECOND {
      assert bs[b] == b;
    } else {
      forall j | 0 <= j < |bs|
        ensures bs[j] == (last.value / SECOND + j + 1) % BUCKETS
      {
        BucketAhead(last.value, j + 1);
      }
      if k :| 1 <= k <= (now - last.value) / SECOND && SecondsOn(last.value, k, b) {
        assert bs[k - 1] == b;
      }
      if b in bs {
        var j :| 0 <= j < |bs| && bs[j] == b;
        assert SecondsOn(last.value, j + 1, b);
      }
    }
  }

  /** Less than two seconds after the last sweep. */
  predicate Timely(last: Option<int>, now: int) {
    last.None? || now - last.value < 2 * SECOND
  }

  /** A timely sweep has at most one bucket due, and none at all within a second of the last one. */
  lemma TimelyBuckets(last: Option<int>, now: int)
    requires Timely(last, now)
    ensures |DueBuckets(last, now)| <= 1
    ensures last.Some? && now - last.value < SECOND ==> DueBuckets(last, now) == []
  {
  }

  /** A sweep within a second of the last one changes no inode, though it counts as a sweep. */
  lemma EarlySweepIdle(base: int, s: State, r: State, now: int)
    requires s.lastSweep.Some? && now - s.lastSweep.value < SECOND && |s.ring| == BUCKETS
    requires Swept(base, s, r, DueBuckets(s.lastSweep, now), now)
    ensures r.inodes == s.inodes && r.evictions == s.evictions && r.cached == s.cached && r.lastSweep == Some(now)
  {
    TimelyBuckets(s.lastSweep, now);
    NothingSwept(base, s, now);
    ScanNone(base, s.inodes, now);
  }

  /** Sweeps of any kind leave every folder's score and the counter in order. */
  lemma SweepKeepsScores(base: int, s: State, r: State, bs: seq<nat>, now: int, claim: Claim)
    requires Inv(s, claim) && !claim.Entries? && Swept(base, s, r, bs, now)
    ensures Inv(r, claim) && forall id :: ListedIn(r, id) ==> ListedIn(s, id)
  {
    var gone := EvictedBy(base, s.inodes, Visited(s, bs), now);
    assert gone <= ListedIds(s.inodes);
    assert ListedIds(r.inodes) == ListedIds(s.inodes) - gone;
    forall id | ListedIn(r, id)
      ensures ListedIn(s, id) && (!claim.Counts? ==> Scored(r, id))
    {
      if !claim.Counts? {
        SameSlots(s, r, id);
      }
    }
  }

  /** A sweep of at most one bucket keeps every listed folder in the ring. */
  lemma SweepInv(base: int, s: State, r: State, bs: seq<nat>, now: int)
    requires Inv(s, Entries) && Swept(base, s, r, bs, now) && |bs| <= 1
    ensures Inv(r, Entries)
  {
    WeakerClaim(s, Entries);
    SweepKeepsScores(base, s, r, bs, now, Scores);
    forall id | ListedIn(r, id)
      ensures HasEntry(r.ring, id)
    {
      SweepKeepsEntry(base, s, r, bs, now, id);
    }
  }

  /** A sweep at `now` keeps any claim short of the ring entries, and those too if it comes in time. */
  lemma SweptClaim(base: int, s: State, r: State, now: int, claim: Claim)
    requires Inv(s, claim) && (claim.Entries? ==> Timely(s.lastSweep, now))
    requires Swept(base, s, r, DueBuckets(s.lastSweep, now), now)
    ensures Inv(r, claim)
  {
    hide Swept, InvBut, DueBuckets, Timely;
    if claim.Entries? {
      TimelyBuckets(s.lastSweep, now);
      SweepInv(base, s, r, DueBuckets(s.lastSweep, now), now);
    } else {
      SweepKeepsScores(base, s, r, DueBuckets(s.lastSweep, now), now, claim);
    }
  }

  lemma SweepKeepsEntry(base: int, s: State, r: State, bs: seq<nat>, now: int, id: Id)
    requires |s.ring| == BUCKETS && Swept(base, s, r, bs, now) && |bs| <= 1
    requires ListedIn(s, id) && HasEntry(s.ring, id) && ListedIn(r, id)
    ensures HasEntry(r.ring, id)
  {
    if id in Visited(s, bs) {
      KeepsEntryIff(base, s, r, bs, now, id);
      assert bs[..0] == [];
      assert !InSome(s.ring, bs[..0], id);
      assert bs[0] in bs ==> EmptiedBefore(s.ring, bs, bs[0], id);
    } else {
      var c :| 0 <= c < |s.ring| && At(s.ring, c, id);
      assert c in bs ==> InSome(s.ring, bs, id);
      assert FiledAfter(base, s, bs, now, c, id);
      assert At(r.ring, c, id);
    }
  }

  // ---------------------------------------------------------------------------
  // Runs
  // ---------------------------------------------------------------------------

  /** A mutator or a turn of the sweep goroutine, at some time. */
  datatype Event = Mutate(op: Op, now: int) | Tick(now: int)

  /** A size-limit pass evicts folders that were listed and idle, counts each one, and changes nothing else. */
  ghost predicate OnlyIdleEvicted(s: State, r: State, now: int) {
    && r == s.(heap := r.heap, inodes := r.inodes, cached := r.cached, evictions := r.evictions)
    && s.cached - r.cached == r.evictions - s.evictions == |ListedIds(s.inodes)| - |ListedIds(r.inodes)|
    && r.inodes.Keys == s.inodes.Keys
    && (forall id :: id in r.inodes ==>
          r.inodes[id] == s.inodes[id] ||
          (now - s.inodes[id].lastAccess >= 5 * SECOND && Listed(s.inodes[id]) && r.inodes[id] == s.inodes[id].(children := None)))
  }

  lemma NoneEvicted(s: State, now: int)
    ensures OnlyIdleEvicted(s, s, now)
  {
  }

  /** Dropping dead slots evicts nothing. */
  lemma SizePassMore(s: State, m: State, r: State, now: int)
    requires OnlyIdleEvicted(s, m, now) && r == m.(heap := r.heap)
    ensures OnlyIdleEvicted(s, r, now)
  {
  }

  lemma OneMoreEvicted(s: State, m: State, r: State, now: int, id: Id)
    requires OnlyIdleEvicted(s, m, now) && ListedIn(m, id) && Idle(m.inodes[id], now)
    requires r == m.(heap := r.heap, inodes := m.inodes[id := m.inodes[id].(children := None)],
                     cached := m.cached - 1, evictions := m.evictions + 1)
    requires |ListedIds(r.inodes)| == |ListedIds(m.inodes)| - 1
    ensures OnlyIdleEvicted(s, r, now)
  {
  }

  /** One turn: the sweep of the buckets that are due, then a size-limit pass. */
  ghost predicate TickStep(base: int, s: State, r: State, now: int) {
    exists m :: Swept(base, s, m, DueBuckets(s.lastSweep, now), now) && OnlyIdleEvicted(m, r, now)
  }

  lemma TickDone(base: int, s: State, m: State, r: State, now: int)
    requires Swept(base, s, m, DueBuckets(s.lastSweep, now), now) && OnlyIdleEvicted(m, r, now)
    ensures TickStep(base, s, r, now)
  {
  }

  ghost predicate EventStep(base: int, s: State, e: Event, r: State) {
    && |s.ring| == |r.ring| == BUCKETS
    && match e
       case Tick(now) => TickStep(base, s, r, now)
       case Mutate(op, now) => BringsUnlisted(op) && r == Step(base, s, op, now)
  }

  /** The states of the cache before, between and after the events. */
  ghost predicate IsRun(base: int, run: seq<State>, events: seq<Event>) {
    |run| == |events| + 1 && forall k :: 0 <= k < |events| ==> EventStep(base, run[k], events[k], run[k + 1])
  }

  /** What keeps a claim: sweeps less than two seconds apart, and no listed folder re-keyed out of it. */
  ghost predicate EventKeeps(s: State, e: Event, claim: Claim) {
    match e
    case Tick(now) => claim.Entries? ==> Timely(s.lastSweep, now)
    case Mutate(op, _) => KeepsClaim(s, op, claim)
  }

  ghost predicate RunKeeps(run: seq<State>, events: seq<Event>, claim: Claim)
    requires |run| > |events|
  {
    forall k :: 0 <= k < |events| ==> EventKeeps(run[k], events[k], claim)
  }

  /** Every turn of the sweep goroutine comes exactly one second after the one before. */
  ghost predicate OnTimeRun(run: seq<State>, events: seq<Event>)
    requires |run| > |events|
  {
    forall k :: 0 <= k < |events| && events[k].Tick? && run[k].lastSweep.Some? ==>
      events[k].now == run[k].lastSweep.value + SECOND
  }

  ghost function Ticks(events: seq<Event>): nat {
    if events == [] then 0
    else Ticks(events[..|events| - 1]) + if events[|events| - 1].Tick? then 1 else 0
  }

  /** Between its two ends, the run never lists folder `f` and never counts an access to it. */
  ghost predicate Untouched(run: seq<State>, events: seq<Event>, f: Id)
    requires |run| == |events| + 1
  {
    forall k :: 0 <= k < |events| && events[k].Mutate? ==> !Touches(run[k], events[k].op, f)
  }

  // ---------------------------------------------------------------------------
  // An idle folder loses its children
  // ---------------------------------------------------------------------------

  /** The folder has the same ring entries, and if it is listed, it was and nothing accessed it. */
  ghost predicate Undisturbed(s: State, r: State, f: Id) {
    && (forall b :: 0 <= b < BUCKETS ==> (At(s.ring, b, f) <==> At(r.ring, b, f)))
    && (ListedIn(r, f) ==>
          ListedIn(s, f) && r.inodes[f].access == s.inodes[f].access && r.inodes[f].lastAccess == s.inodes[f].lastAccess)
  }

  /** A step that neither sweeps nor lists or accesses folder `f`. */
  ghost predicate Quiet(s: State, r: State, f: Id) {
    r.lastSweep == s.lastSweep && Undisturbed(s, r, f)
  }

  lemma SizePassQuiet(s: State, r: State, now: int, f: Id)
    requires OnlyIdleEvicted(s, r, now)
    ensures Quiet(s, r, f)
  {
  }

  /** A sweep whose buckets hold no entry of a folder leaves it alone. */
  lemma SweepPasses(base: int, s: State, m: State, bs: seq<nat>, now: int, f: Id)
    requires Swept(base, s, m, bs, now) && |s.ring| == BUCKETS && !InSome(s.ring, bs, f)
    ensures Undisturbed(s, m, f) && (f in s.inodes ==> f in m.inodes && m.inodes[f] == s.inodes[f])
  {
    assert f !in Visited(s, bs);
    forall b | 0 <= b < BUCKETS
      ensures At(s.ring, b, f) <==> At(m.ring, b, f)
    {
      assert At(m.ring, b, f) <==> FiledAfter(base, s, bs, now, b, f);
      assert b in bs ==> !At(s.ring, b, f);
    }
  }

  /** From time `t` on, `f` is past its effective TTL. */
  ghost predicate Past(base: int, s: State, f: Id, t: int) {
    ListedIn(s, f) ==> s.inodes[f].lastAccess <= t && t > Expiry(base, s.inodes[f])
  }

  /** A sweep that finds a folder past its TTL takes its children. */
  lemma SweepTakes(base: int, s: State, m: State, bs: seq<nat>, now: int, f: Id, t: int)
    requires Swept(base, s, m, bs, now) && InSome(s.ring, bs, f) && Past(base, s, f, t) && t <= now
    ensures !ListedIn(m, f)
  {
    if ListedIn(s, f) {
      var i := s.inodes[f];
      ExpiredStays(base, i.access, i.access / 2, i.lastAccess, t, now);
      SweepEvictsIff(base, s, m, bs, now, f);
    }
  }

  lemma TickTakes(base: int, s: State, r: State, now: int, f: Id, t: int)
    requires TickStep(base, s, r, now) && InSome(s.ring, DueBuckets(s.lastSweep, now), f) && Past(base, s, f, t) && t <= now
    ensures !ListedIn(r, f)
  {
    var m :| Swept(base, s, m, DueBuckets(s.lastSweep, now), now) && OnlyIdleEvicted(m, r, now);
    hide DueBuckets, Swept, InSome, Past;
    SweepTakes(base, s, m, DueBuckets(s.lastSweep, now), now, f, t);
    SizePassQuiet(m, r, now, f);
  }

  lemma TickPasses(base: int, s: State, r: State, now: int, f: Id)
    requires TickStep(base, s, r, now) && |s.ring| == BUCKETS && !InSome(s.ring, DueBuckets(s.lastSweep, now), f)
    ensures Undisturbed(s, r, f)
  {
    var m :| Swept(base, s, m, DueBuckets(s.lastSweep, now), now) && OnlyIdleEvicted(m, r, now);
    hide DueBuckets, Swept, InSome, At, OnlyIdleEvicted;
    SweepPasses(base, s, m, DueBuckets(s.lastSweep, now), now, f);
    SizePassQuiet(m, r, now, f);
  }

  lemma TickUnlists(base: int, s: State, r: State, now: int, f: Id)
    requires TickStep(base, s, r, now)
    ensures r.lastSweep == Some(now) && (ListedIn(r, f) ==> ListedIn(s, f))
  {
    var m :| Swept(base, s, m, DueBuckets(s.lastSweep, now), now) && OnlyIdleEvicted(m, r, now);
    hide DueBuckets;
    SizePassQuiet(m, r, now, f);
  }

  lemma {:induction false} StaysUnlisted(base: int, run: seq<State>, events: seq<Event>, f: Id, i: nat, j: nat)
    requires IsRun(base, run, events) && Untouched(run, events, f) && i <= j <= |events| && !ListedIn(run[i], f)
    ensures !ListedIn(run[j], f)
    decreases j
  {
    hide Touches, TickStep, Step;
    if i < j {
      StaysUnlisted(base, run, events, f, i, j - 1);
      var k := j - 1;
      assert EventStep(base, run[k], events[k], run[k + 1]);
      match events[k]
      case Tick(now) => TickUnlists(base, run[k], run[k + 1], now, f);
      case Mutate(op, now) => StepQuiet(base, run[k], op, now, f);
    }
  }

  /** At event `k` the sweep goroutine empties a bucket that held an entry of `f` when the run began. */
  ghost predicate Reached(run: seq<State>, events: seq<Event>, f: Id, k: nat)
    requires k < |events| < |run|
  {
    events[k].Tick? && InSome(run[0].ring, DueBuckets(run[k].lastSweep, events[k].now), f)
  }

  lemma SameBuckets(s: State, r: State, bs: seq<nat>, f: Id)
    requires Undisturbed(s, r, f) && |s.ring| == |r.ring| == BUCKETS
    ensures InSome(s.ring, bs, f) <==> InSome(r.ring, bs, f)
  {
    if InSome(s.ring, bs, f) {
      var k :| 0 <= k < |bs| && At(s.ring, bs[k], f);
      assert At(r.ring, bs[k], f);
    }
    if InSome(r.ring, bs, f) {
      var k :| 0 <= k < |bs| && At(r.ring, bs[k], f);
      assert At(s.ring, bs[k], f);
    }
  }

  /** Until it is reached, an untouched folder keeps its entries and its deadline. */
  lemma {:induction false} EntriesStay(base: int, run: seq<State>, events: seq<Event>, f: Id, n: nat)
    requires IsRun(base, run, events) && Untouched(run, events, f) && n <= |events|
    requires forall k :: 0 <= k < n ==> !Reached(run, events, f, k)
    ensures Undisturbed(run[0], run[n], f)
    decreases n
  {
    hide Touches, TickStep, Step, InSome, At, DueBuckets;
    if n > 0 {
      var k := n - 1;
      EntriesStay(base, run, events, f, k);
      assert EventStep(base, run[0], events[0], run[0 + 1]) && EventStep(base, run[k], events[k], run[k + 1]);
      match events[k]
      case Tick(now) =>
        assert !Reached(run, events, f, k);
        SameBuckets(run[0], run[k], DueBuckets(run[k].lastSweep, now), f);
        TickPasses(base, run[k], run[k + 1], now, f);
      case Mutate(op, now) => StepQuiet(base, run[k], op, now, f);
    }
  }

  lemma PastStays(base: int, s: State, r: State, f: Id, t: int)
    requires Past(base, s, f, t) && Undisturbed(s, r, f)
    ensures Past(base, r, f, t)
  {
  }

  /**
   * Whenever the sweeps come, an untouched folder past its TTL loses its children to them at exactly
   * the first one that reaches it: no sweep before it changes the folder, and it stays unlisted after it.
   */
  lemma FirstReachUnlists(base: int, run: seq<State>, events: seq<Event>, f: Id, t: int, n: nat)
    requires IsRun(base, run, events) && Untouched(run, events, f) && Past(base, run[0], f, t)
    requires n < |events| && Reached(run, events, f, n) && forall k :: 0 <= k < n ==> !Reached(run, events, f, k)
    requires t <= events[n].now
    ensures forall j :: n < j <= |events| ==> !ListedIn(run[j], f)
    ensures forall k, m ::
              (&& 0 <= k < n && events[k].Tick? && f in run[k].inodes
               && Swept(base, run[k], m, DueBuckets(run[k].lastSweep, events[k].now), events[k].now)) ==>
              f in m.inodes && m.inodes[f] == run[k].inodes[f]
  {
    hide Touches, TickStep, Step, InSome, DueBuckets, Swept, Undisturbed, Past;
    EntriesStay(base, run, events, f, n);
    PastStays(base, run[0], run[n], f, t);
    assert EventStep(base, run[0], events[0], run[0 + 1]) && EventStep(base, run[n], events[n], run[n + 1]);
    SameBuckets(run[0], run[n], DueBuckets(run[n].lastSweep, events[n].now), f);
    TickTakes(base, run[n], run[n + 1], events[n].now, f, t);
    forall j | n < j <= |events|
      ensures !ListedIn(run[j], f)
    {
      StaysUnlisted(base, run, events, f, n + 1, j);
    }
    forall k, m | 0 <= k < n && events[k].Tick? && f in run[k].inodes &&
        Swept(base, run[k], m, DueBuckets(run[k].lastSweep, events[k].now), events[k].now)
      ensures f in m.inodes && m.inodes[f] == run[k].inodes[f]
    {
      NotReached(base, run, events, f, k, m);
    }
  }

  lemma NotReached(base: int, run: seq<State>, events: seq<Event>, f: Id, n: nat, m: State)
    requires IsRun(base, run, events) && Untouched(run, events, f) && n < |events| && events[n].Tick? && f in run[n].inodes
    requires forall k :: 0 <= k <= n ==> !Reached(run, events, f, k)
    requires Swept(base, run[n], m, DueBuckets(run[n].lastSweep, events[n].now), events[n].now)
    ensures f in m.inodes && m.inodes[f] == run[n].inodes[f]
  {
    hide Touches, TickStep, Step, InSome, DueBuckets, Swept, Undisturbed;
    EntriesStay(base, run, events, f, n);
    assert EventStep(base, run[0], events[0], run[0 + 1]) && EventStep(base, run[n], events[n], run[n + 1]);
    assert !Reached(run, events, f, n);
    SameBuckets(run[0], run[n], DueBuckets(run[n].lastSweep, events[n].now), f);
    SweepPasses(base, run[n], m, DueBuckets(run[n].lastSweep, events[n].now), events[n].now, f);
  }

  lemma {:induction false} FirstReach(run: seq<State>, events: seq<Event>, f: Id, k: nat) returns (n: nat)
    requires k < |events| < |run| && Reached(run, events, f, k)
    ensures n <= k && Reached(run, events, f, n) && forall j :: 0 <= j < n ==> !Reached(run, events, f, j)
    decreases k
  {
    hide Reached;
    if j :| 0 <= j < k && Reached(run, events, f, j) {
      n := FirstReach(run, events, f, j);
    } else {
      n := k;
    }
  }

  /** With sweeps one second apart, the time of the last sweep counts them. */
  lemma {:induction false} SweepsCount(base: int, run: seq<State>, events: seq<Event>, k: nat)
    requires IsRun(base, run, events) && OnTimeRun(run, events) && k <= |events| && run[0].lastSweep.Some?
    ensures run[k].lastSweep == Some(run[0].lastSweep.value + Ticks(events[..k]) * SECOND)
    decreases k
  {
    hide TickStep, Step;
    if k > 0 {
      var j := k - 1;
      SweepsCount(base, run, events, j);
      assert EventStep(base, run[j], events[j], run[j + 1]);
      assert events[..k][..j] == events[..j];
      match events[j]
      case Tick(now) => TickUnlists(base, run[j], run[k], now, "");
      case Mutate(op, now) => StepSweepsNothing(base, run[j], op, now);
    }
  }

  lemma StepSweepsNothing(base: int, s: State, op: Op, now: int)
    ensures Step(base, s, op, now).lastSweep == s.lastSweep
  {
  }

  lemma {:induction false} NthTick(events: seq<Event>, d: nat) returns (k: nat)
    requires 1 <= d <= Ticks(events)
    ensures k < |events| && events[k].Tick? && Ticks(events[..k]) == d - 1
    decreases |events|
  {
    var n := |events| - 1;
    if Ticks(events[..n]) >= d {
      k := NthTick(events[..n], d);
      assert events[..n][..k] == events[..k];
    } else {
      k := n;
    }
  }

  /**
   * With sweeps one second apart, a folder past its effective TTL that is not accessed again has lost
   * its children after 60 of them, whatever else the run does in between.
   */
  lemma IdleFolderLosesChildren(base: int, run: seq<State>, events: seq<Event>, f: Id)
    requires IsRun(base, run, events) && OnTimeRun(run, events) && Untouched(run, events, f)
    requires Inv(run[0], Entries) && run[0].lastSweep.Some? && Past(base, run[0], f, run[0].lastSweep.value + SECOND)
    requires Ticks(events) >= BUCKETS
    ensures !ListedIn(run[|events|], f)
  {
    hide EventStep, Untouched, InvBut, Past;
    if ListedIn(run[0], f) {
      var t := run[0].lastSweep.value;
      var b := RingEntry(run[0], f);
      var d := SweepsUntil(t, b);
      var k := NthTick(events, d);
      SweepsCount(base, run, events, k);
      OnTimeReach(run, events, f, k, b);
      var n := FirstReach(run, events, f, k);
      SweepsCount(base, run, events, n);
      FirstReachUnlists(base, run, events, f, t + SECOND, n);
    } else {
      StaysUnlisted(base, run, events, f, 0, |events|);
    }
  }

  lemma OnTimeReach(run: seq<State>, events: seq<Event>, f: Id, k: nat, b: nat)
    requires k < |events| < |run| && OnTimeRun(run, events) && events[k].Tick? && run[k].lastSweep.Some?
    requires b == BucketIndex(run[k].lastSweep.value + SECOND) && At(run[0].ring, b, f)
    ensures Reached(run, events, f, k)
  {
    OneSecondLater(run[k].lastSweep.value);
    var bs := DueBuckets(run[k].lastSweep, events[k].now);
    assert bs[0] == b;
  }

  lemma RingEntry(s: State, f: Id) returns (b: nat)
    requires Inv(s, Entries) && ListedIn(s, f)
    ensures b < BUCKETS && At(s.ring, b, f)
  {
    b :| 0 <= b < |s.ring| && At(s.ring, b, f);
  }

  lemma SweepsUntil(t: int, b: nat) returns (d: nat)
    requires b < BUCKETS
    ensures 1 <= d <= BUCKETS && BucketIndex(t + d * SECOND) == b
  {
    d := (b - t / SECOND - 1) % BUCKETS + 1;
    BucketAhead(t, d);
  }

  // ---------------------------------------------------------------------------
  // A folder lost to the ring
  // ---------------------------------------------------------------------------

  lemma NoneInSome(ring: seq<seq<TtlEntry>>, bs: seq<nat>, f: Id)
    requires !HasEntry(ring, f)
    ensures !InSome(ring, bs, f)
  {
  }

  /** No sweep, of whatever buckets and whenever, finds a folder without a ring entry. */
  lemma SweepMisses(base: int, s: State, m: State, bs: seq<nat>, now: int, f: Id)
    requires Swept(base, s, m, bs, now) && |s.ring| == BUCKETS && !HasEntry(s.ring, f)
    ensures Undisturbed(s, m, f) && (f in s.inodes ==> f in m.inodes && m.inodes[f] == s.inodes[f])
  {
    SweepPasses(base, s, m, bs, now, f);
  }

  /**
   * Whatever else a run does and whenever it sweeps, a folder without a ring entry that is not listed
   * anew or accessed never gets one again, and no TTL sweep of the run changes it.
   */
  lemma LostFolderNeverSwept(base: int, run: seq<State>, events: seq<Event>, f: Id, n: nat)
    requires IsRun(base, run, events) && Untouched(run, events, f) && n <= |events|
    requires |run[0].ring| == BUCKETS && !HasEntry(run[0].ring, f)
    ensures forall b :: 0 <= b < BUCKETS ==> !At(run[n].ring, b, f)
    ensures n < |events| && events[n].Tick? ==>
              forall m :: Swept(base, run[n], m, DueBuckets(run[n].lastSweep, events[n].now), events[n].now) && f in run[n].inodes ==>
                f in m.inodes && m.inodes[f] == run[n].inodes[f]
  {
    hide Touches, TickStep, Step, DueBuckets, Swept, InSome;
    forall k | 0 <= k < |events|
      ensures !Reached(run, events, f, k)
    {
      if events[k].Tick? {
        NoneInSome(run[0].ring, DueBuckets(run[k].lastSweep, events[k].now), f);
      }
    }
    hide Reached;
    EntriesStay(base, run, events, f, n);
    if n < |events| && events[n].Tick? {
      forall m | Swept(base, run[n], m, DueBuckets(run[n].lastSweep, events[n].now), events[n].now) && f in run[n].inodes
        ensures f in m.inodes && m.inodes[f] == run[n].inodes[f]
      {
        NotReached(base, run, events, f, n, m);
      }
    }
  }

  /** The mutators that list `f` or count an access to it. */
  predicate Touches(s: State, op: Op, f: Id) {
    match op
    case Hit(parent) => parent == f
    case Populate(parent, _) => parent == f
    case Restore(id, _) => id == f
    case Insert(id, inode) => inode.parent == f && (id == f || !ListedIn(s, f))
    case MoveChild(_, newParent, _) => newParent == f && !ListedIn(s, f)
    case MoveID(oldId, newId) => newId == f && ListedIn(s, oldId)
    case _ => false
  }

  lemma ScheduleQuiet(base: int, s: State, id: Id, i: Inode, now: int, f: Id)
    requires |s.ring| == BUCKETS && id != f
    ensures Quiet(s, Schedule(base, s, id, i, now), f)
  {
    if Listed(i) {
      RegisterEffect(base, s.ring, id, i);
    }
  }

  lemma QuietTwice(s: State, m: State, r: State, f: Id)
    requires Quiet(s, m, f) && Quiet(m, r, f)
    ensures Quiet(s, r, f)
  {
  }

  lemma AttachOrSeedQuiet(base: int, s: State, parent: Id, child: Id, now: int, f: Id)
    requires |s.ring| == BUCKETS && (parent == f ==> ListedIn(s, f))
    ensures Quiet(s, AttachOrSeed(base, s, parent, child, now), f)
  {
    hide Schedule, At;
    if parent in s.inodes && !Listed(s.inodes[parent]) {
      var seeded := s.inodes[parent].(children := Some([child]));
      var m := s.(inodes := s.inodes[parent := seeded], cached := s.cached + 1);
      ScheduleQuiet(base, m, parent, seeded, now, f);
      QuietTwice(s, m, AttachOrSeed(base, s, parent, child, now), f);
    }
  }

  lemma {:induction false} StoreAllQuiet(inodes: map<Id, Inode>, items: seq<(Id, Inode)>, parent: Id, f: Id)
    requires forall k :: 0 <= k < |items| ==> !Listed(items[k].1)
    ensures var r := StoreAll(inodes, items, parent);
            f in r && Listed(r[f]) ==> f in inodes && r[f] == inodes[f]
    decreases |items|
  {
    if items != [] {
      var (id, i) := items[0];
      StoreAllQuiet(inodes[id := if i.parent == "" then i.(parent := parent) else i], items[1..], parent, f);
    }
  }

  lemma PopulateQuiet(base: int, s: State, parent: Id, items: seq<(Id, Inode)>, now: int, f: Id)
    requires |s.ring| == BUCKETS && BringsUnlisted(Populate(parent, items)) && parent != f
    ensures Quiet(s, PopulateStep(base, s, parent, items, now), f)
  {
    hide Schedule, At;
    StoreAllQuiet(s.inodes, items, parent, f);
    var folder := if parent in s.inodes then s.inodes[parent] else Inode(None, 0, 0, 0, "");
    var listed := Bump(SetChildren(folder, Some(Ids(items)), now), now);
    var stored := StoreAll(s.inodes, items, parent);
    var m := s.(inodes := if parent in s.inodes && parent in Ids(items) then stored else stored[parent := listed],
                cached := if Listed(folder) then s.cached else s.cached + 1);
    ScheduleQuiet(base, m, parent, listed, now, f);
    QuietTwice(s, m, PopulateStep(base, s, parent, items, now), f);
  }

  /** Every other mutator leaves `f` alone in the sense of an idle run. */
  lemma StepQuiet(base: int, s: State, op: Op, now: int, f: Id)
    requires |s.ring| == BUCKETS && BringsUnlisted(op) && !Touches(s, op, f)
    ensures Quiet(s, Step(base, s, op, now), f)
  {
    hide Schedule, AttachOrSeed, PopulateStep, At;
    var r := Step(base, s, op, now);
    match op
    case Insert(id, inode) =>
      var stored := s.(inodes := s.inodes[id := inode]);
      if inode.parent != "" {
        AttachOrSeedQuiet(base, stored, inode.parent, id, now, f);
      }
    case Hit(parent) =>
      if r != s {
        var hit := Bump(s.inodes[parent], now);
        ScheduleQuiet(base, s.(inodes := s.inodes[parent := hit]), parent, hit, now, f);
      }
    case Populate(parent, items) =>
      PopulateQuiet(base, s, parent, items, now, f);
    case MoveChild(oldParent, newParent, child) =>
      if child in s.inodes {
        var detached := if oldParent in s.inodes then s.inodes[oldParent := Detach(s.inodes[oldParent], child)] else s.inodes;
        AttachOrSeedQuiet(base, s.(inodes := detached), newParent, child, now, f);
        QuietTwice(s, s.(inodes := detached), r, f);
      }
    case Restore(id, inode) =>
      if id !in s.inodes && Listed(inode) {
        ScheduleQuiet(base, s.(inodes := s.inodes[id := inode], cached := s.cached + 1), id, inode, now, f);
      }
    case _ =>
  }
}
