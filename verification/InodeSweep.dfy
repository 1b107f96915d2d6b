/** The TTL sweep over the bucket ring, against the full scan it replaced. */
module InodeSweep {
  import opened InodeModel
  import opened Wrappers
  import opened InodeRuns

  // ---------------------------------------------------------------------------
  // What a sweep does
  // ---------------------------------------------------------------------------

  ghost predicate InSome(ring: seq<seq<TtlEntry>>, bs: seq<nat>, id: Id) {
    exists k :: 0 <= k < |bs| && At(ring, bs[k], id)
  }

  /** Listed folders with an entry in one of the buckets `bs`. */
  ghost function Visited(s: State, bs: seq<nat>): set<Id> {
    set id | id in s.inodes && Listed(s.inodes[id]) && InSome(s.ring, bs, id)
  }

  /** Decay and, where due, eviction of the listed folders in `vis`; every other inode unchanged. */
  function ScanOn(base: int, inodes: map<Id, Inode>, vis: set<Id>, now: int): map<Id, Inode> {
    map id | id in inodes :: if id in vis && Listed(inodes[id]) then ScanOne(base, inodes[id], now) else inodes[id]
  }

  function EvictedBy(base: int, inodes: map<Id, Inode>, vis: set<Id>, now: int): set<Id> {
    set id | id in vis && id in inodes && Listed(inodes[id]) && !Listed(ScanOne(base, inodes[id], now))
  }

  /** A visited folder that is still listed goes back into the bucket of its new deadline, `b`. */
  ghost predicate Refiled(base: int, s: State, vis: set<Id>, now: int, b: nat, id: Id) {
    && id in vis && ListedIn(s, id)
    && var after := ScanOne(base, s.inodes[id], now); Listed(after) && BucketIndex(Expiry(base, after)) == b
  }

  /** Bucket `b` is emptied at a time when `id` has not been processed yet. */
  ghost predicate EmptiedBefore(ring: seq<seq<TtlEntry>>, bs: seq<nat>, b: nat, id: Id) {
    exists i :: 0 <= i < |bs| && bs[i] == b && !InSome(ring, bs[..i], id)
  }

  /** Where folder `id` is filed after the buckets `bs` were swept in this order. */
  ghost predicate FiledAfter(base: int, s: State, bs: seq<nat>, now: int, b: nat, id: Id) {
    if b in bs then Refiled(base, s, Visited(s, bs), now, b, id) && EmptiedBefore(s.ring, bs, b, id)
    else At(s.ring, b, id) || Refiled(base, s, Visited(s, bs), now, b, id)
  }

  ghost predicate FiledAs(base: int, s: State, ring: seq<seq<TtlEntry>>, bs: seq<nat>, now: int) {
    |ring| == BUCKETS && forall b, id :: 0 <= b < BUCKETS ==> (At(ring, b, id) <==> FiledAfter(base, s, bs, now, b, id))
  }

  /** The effect of sweeping `bs` at `now`, short of recording the time. */
  ghost predicate SweptTo(base: int, s: State, r: State, bs: seq<nat>, now: int) {
    var n := |EvictedBy(base, s.inodes, Visited(s, bs), now)|;
    && r == s.(inodes := ScanOn(base, s.inodes, Visited(s, bs), now), ring := r.ring,
               evictions := s.evictions + n, cached := s.cached - n)
    && FiledAs(base, s, r.ring, bs, now)
  }

  ghost predicate Swept(base: int, s: State, r: State, bs: seq<nat>, now: int) {
    r.lastSweep == Some(now) && SweptTo(base, s, r.(lastSweep := s.lastSweep), bs, now)
  }

  /** The effect of the full scan: every listed folder decays, the expired ones are evicted. */
  ghost predicate FullScanned(base: int, s: State, r: State, now: int) {
    var n := |EvictedBy(base, s.inodes, s.inodes.Keys, now)|;
    r == s.(inodes := ScanOn(base, s.inodes, s.inodes.Keys, now), evictions := s.evictions + n, cached := s.cached - n)
  }

  /** The buckets a sweep at `now` processes, in order. */
  function DueBuckets(last: Option<int>, now: int): seq<nat> {
    var start := if last.None? then now - SECOND else last.value;
    if now - start > BUCKETS * SECOND then seq(BUCKETS, i requires 0 <= i < BUCKETS => i)
    else if now < start then []
    else seq((now - start) / SECOND, k requires 0 <= k => BucketIndex(start + (k + 1) * SECOND))
  }

  ghost predicate Distinct(bs: seq<nat>) {
    && (forall k :: 0 <= k < |bs| ==> bs[k] < BUCKETS)
    && (forall j, k :: 0 <= j < k < |bs| ==> bs[j] != bs[k])
  }

  /** No bucket is due twice in one sweep. */
  lemma DueBucketsDistinct(last: Option<int>, now: int)
    ensures Distinct(DueBuckets(last, now))
  {
    var start := if last.None? then now - SECOND else last.value;
    var bs := DueBuckets(last, now);
    if start <= now <= start + BUCKETS * SECOND {
      forall j, k | 0 <= j < k < |bs|
        ensures bs[j] != bs[k]
      {
        BucketAhead(start, j + 1);
        BucketAhead(start, k + 1);
        ResiduesApart(start / SECOND, j + 1, k + 1);
      }
    }
  }

  lemma ResiduesApart(a: int, j: int, k: int)
    requires 0 < k - j < BUCKETS
    ensures (a + j) % BUCKETS != (a + k) % BUCKETS
  {
  }

  lemma BucketAhead(t: int, k: nat)
    ensures BucketIndex(t + k * SECOND) == (t / SECOND + k) % BUCKETS
  {
    BucketIndexIsResidue(t + k * SECOND);
    assert (t + k * SECOND) / SECOND == t / SECOND + k;
  }

  // ---------------------------------------------------------------------------
  // One more bucket
  // ---------------------------------------------------------------------------

  lemma VisitedOneMore(s: State, bs: seq<nat>, k: nat, id: Id)
    requires k < |bs|
    ensures InSome(s.ring, bs[..k + 1], id) <==> InSome(s.ring, bs[..k], id) || At(s.ring, bs[k], id)
  {
    if InSome(s.ring, bs[..k], id) {
      var j :| 0 <= j < k && At(s.ring, bs[..k][j], id);
      assert bs[..k + 1][j] == bs[..k][j];
    }
    if At(s.ring, bs[k], id) {
      assert bs[..k + 1][k] == bs[k];
    }
    if InSome(s.ring, bs[..k + 1], id) {
      var j :| 0 <= j < k + 1 && At(s.ring, bs[..k + 1][j], id);
      if j < k {
        assert bs[..k][j] == bs[..k + 1][j];
      }
    }
  }

  lemma EmptiedOneMore(s: State, bs: seq<nat>, k: nat, b: nat, id: Id)
    requires Distinct(bs) && k < |bs|
    ensures b == bs[k] ==> (EmptiedBefore(s.ring, bs[..k + 1], b, id) <==> !InSome(s.ring, bs[..k], id))
    ensures b != bs[k] ==> (EmptiedBefore(s.ring, bs[..k + 1], b, id) <==> EmptiedBefore(s.ring, bs[..k], b, id))
    ensures b in bs[..k] && !InSome(s.ring, bs[..k], id) ==> EmptiedBefore(s.ring, bs[..k], b, id)
  {
    var more, less := bs[..k + 1], bs[..k];
    forall i | 0 <= i < k
      ensures more[..i] == less[..i] && more[i] == less[i]
    {
    }
    assert more[..k] == less && more[k] == bs[k];
    if EmptiedBefore(s.ring, more, b, id) {
      var i :| 0 <= i < |more| && more[i] == b && !InSome(s.ring, more[..i], id);
      if i < k {
        assert less[i] == b && !InSome(s.ring, less[..i], id);
      }
    }
    if EmptiedBefore(s.ring, less, b, id) {
      var i :| 0 <= i < |less| && less[i] == b && !InSome(s.ring, less[..i], id);
      assert more[i] == b && !InSome(s.ring, more[..i], id);
    }
    if b in less && !InSome(s.ring, less, id) {
      var i :| 0 <= i < |less| && less[i] == b;
      PrefixInSome(s.ring, less, i, id);
    }
  }

  lemma PrefixInSome(ring: seq<seq<TtlEntry>>, bs: seq<nat>, i: nat, id: Id)
    requires i <= |bs|
    ensures InSome(ring, bs[..i], id) ==> InSome(ring, bs, id)
  {
    if InSome(ring, bs[..i], id) {
      var k :| 0 <= k < i && At(ring, bs[..i][k], id);
      assert At(ring, bs[k], id);
    }
  }

  /** Filing after one more bucket, in terms of filing before it. */
  lemma FiledOneMore(base: int, s: State, bs: seq<nat>, k: nat, now: int, b: nat, id: Id)
    requires Distinct(bs) && k < |bs|
    ensures FiledAfter(base, s, bs[..k + 1], now, b, id) <==>
            (b != bs[k] && FiledAfter(base, s, bs[..k], now, b, id)) ||
            (id !in Visited(s, bs[..k]) && Refiled(base, s, Visited(s, bs[..k + 1]), now, b, id))
  {
    VisitedOneMore(s, bs, k, id);
    EmptiedOneMore(s, bs, k, b, id);
    assert b in bs[..k + 1] <==> b in bs[..k] || b == bs[k] by {
      assert bs[..k + 1] == bs[..k] + [bs[k]];
    }
  }

  /** A bucket about to be swept brings up the listed folders filed in it, and repeats of earlier ones. */
  lemma BroughtUp(base: int, s: State, ring: seq<seq<TtlEntry>>, bs: seq<nat>, k: nat, now: int)
    requires Distinct(bs) && k < |bs| && FiledAs(base, s, ring, bs[..k], now)
    ensures forall id :: id in Visited(s, bs[..k + 1]) <==>
              id in Visited(s, bs[..k]) || (ListedIn(s, id) && At(ring, bs[k], id))
  {
    forall id
      ensures id in Visited(s, bs[..k + 1]) <==> id in Visited(s, bs[..k]) || (ListedIn(s, id) && At(ring, bs[k], id))
    {
      VisitedOneMore(s, bs, k, id);
      assert At(ring, bs[k], id) <==> FiledAfter(base, s, bs[..k], now, bs[k], id);
      assert bs[k] !in bs[..k];
    }
  }

  // ---------------------------------------------------------------------------
  // One more folder
  // ---------------------------------------------------------------------------

  /** Scanning one more folder changes that folder and, if it is evicted, the two counters. */
  lemma ScanOneMore(base: int, inodes: map<Id, Inode>, done: set<Id>, id: Id, now: int)
    requires id in inodes && Listed(inodes[id]) && id !in done
    ensures ScanOn(base, inodes, done + {id}, now) ==
            ScanOn(base, inodes, done, now)[id := ScanOne(base, inodes[id], now)]
    ensures |EvictedBy(base, inodes, done + {id}, now)| ==
            |EvictedBy(base, inodes, done, now)| + (if Listed(ScanOne(base, inodes[id], now)) then 0 else 1)
  {
    var more, less := EvictedBy(base, inodes, done + {id}, now), EvictedBy(base, inodes, done, now);
    if Listed(ScanOne(base, inodes[id], now)) {
      assert more == less;
    } else {
      assert more == less + {id};
    }
  }

  lemma ScanNone(base: int, inodes: map<Id, Inode>, now: int)
    ensures ScanOn(base, inodes, {}, now) == inodes && EvictedBy(base, inodes, {}, now) == {}
  {
  }

  lemma ScanUntouched(base: int, inodes: map<Id, Inode>, done: set<Id>, id: Id, now: int)
    requires id in inodes && id !in done
    ensures ScanOn(base, inodes, done, now).Keys == inodes.Keys
    ensures ScanOn(base, inodes, done, now)[id] == inodes[id]
    ensures !Listed(inodes[id]) ==>
              && ScanOn(base, inodes, done + {id}, now) == ScanOn(base, inodes, done, now)
              && EvictedBy(base, inodes, done + {id}, now) == EvictedBy(base, inodes, done, now)
  {
  }

  /** Part-way through a bucket: `done` have been processed, those not in `before` by this bucket. */
  ghost predicate MidBucket(base: int, s: State, cur: State, ring: seq<seq<TtlEntry>>, before: set<Id>, done: set<Id>, now: int) {
    && (var n := |EvictedBy(base, s.inodes, done, now)|;
        cur == s.(inodes := ScanOn(base, s.inodes, done, now), ring := cur.ring,
                  evictions := s.evictions + n, cached := s.cached - n))
    && before <= done && |cur.ring| == BUCKETS
    && (forall b, id :: 0 <= b < BUCKETS ==>
          (At(cur.ring, b, id) <==> At(ring, b, id) || (id !in before && Refiled(base, s, done, now, b, id))))
  }

  /** What processTTLEntry does to a listed folder that this sweep has not processed yet. */
  function ProcessFolder(base: int, s: State, id: Id, now: int): State
    requires ListedIn(s, id)
  {
    var after := ScanOne(base, s.inodes[id], now);
    if Listed(after) then
      s.(inodes := s.inodes[id := after], ring := Register(base, s.ring, id, after))
    else
      s.(inodes := s.inodes[id := after], evictions := s.evictions + 1, cached := s.cached - 1)
  }

  lemma MidBucketNext(base: int, s: State, cur: State, ring: seq<seq<TtlEntry>>, before: set<Id>, done: set<Id>, now: int, id: Id)
    requires MidBucket(base, s, cur, ring, before, done, now)
    requires ListedIn(s, id) && id !in done
    ensures ListedIn(cur, id) && MidBucket(base, s, ProcessFolder(base, cur, id, now), ring, before, done + {id}, now)
  {
    ScanOneMore(base, s.inodes, done, id, now);
    var after := ScanOne(base, s.inodes[id], now);
    var r := ProcessFolder(base, cur, id, now);
    if Listed(after) {
      RegisterEffect(base, cur.ring, id, after);
    }
    forall b, x | 0 <= b < BUCKETS
      ensures At(r.ring, b, x) <==> At(ring, b, x) || (x !in before && Refiled(base, s, done + {id}, now, b, x))
    {
    }
  }

  lemma OneMoreMention(entries: seq<TtlEntry>, j: nat)
    requires j < |entries|
    ensures forall id :: Mentions(entries[..j + 1], id) <==> Mentions(entries[..j], id) || entries[j].id == id
  {
    forall id
      ensures Mentions(entries[..j + 1], id) <==> Mentions(entries[..j], id) || entries[j].id == id
    {
      MentionsAppend(entries[..j], entries[j], id);
      assert entries[..j + 1] == entries[..j] + [entries[j]];
    }
  }

  /** A bucket just emptied: nothing of it processed yet. */
  lemma BucketStart(base: int, s: State, was: State, bs: seq<nat>, k: nat, now: int)
    requires Distinct(bs) && k < |bs| && SweptTo(base, s, was, bs[..k], now)
    ensures |was.ring| == BUCKETS && bs[k] < BUCKETS
    ensures var cur := was.(ring := was.ring[bs[k] := []]);
            MidBucket(base, s, cur, cur.ring, Visited(s, bs[..k]), Visited(s, bs[..k]), now)
  {
  }

  /** A bucket finished: the sweep stands one bucket further. */
  lemma BucketDone(base: int, s: State, was: State, cur: State, bs: seq<nat>, k: nat, now: int)
    requires Distinct(bs) && k < |bs| && SweptTo(base, s, was, bs[..k], now)
    requires MidBucket(base, s, cur, was.ring[bs[k] := []], Visited(s, bs[..k]), Visited(s, bs[..k + 1]), now)
    ensures SweptTo(base, s, cur, bs[..k + 1], now)
  {
    forall b, id | 0 <= b < BUCKETS
      ensures At(cur.ring, b, id) <==> FiledAfter(base, s, bs[..k + 1], now, b, id)
    {
      FiledOneMore(base, s, bs, k, now, b, id);
      var emptied := was.ring[bs[k] := []];
      assert At(emptied, b, id) <==> b != bs[k] && At(was.ring, b, id);
    }
  }

  lemma NothingSwept(base: int, s: State, now: int)
    requires |s.ring| == BUCKETS
    ensures SweptTo(base, s, s, [], now) && Visited(s, []) == {}
  {
    ScanNone(base, s.inodes, now);
  }
}
