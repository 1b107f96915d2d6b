/** The breadth-first warm-up of the metadata cache at mount time. */
module PreWarm {
  import opened Wrappers

  type Id = string

  const ROOT: Id := "root"

  /** The folders below each folder, in the order the listing yields them, and which fetches fail. */
  datatype Drive = Drive(kids: Id -> seq<Id>, fails: Id -> bool) {

    /** Child folders a walk can learn about from `v`. */
    function Seen(v: Id): seq<Id> {
      if fails(v) then [] else kids(v)
    }

    /** `v` is at most `n` steps below the root. */
    ghost predicate Within(v: Id, n: nat)
      decreases n
    {
      v == ROOT || (n > 0 && exists u :: Within(u, n - 1) && v in Seen(u))
    }

    /** `u` can be fetched and has `v` below it. */
    predicate Edge(u: Id, v: Id) {
      !fails(u) && v in kids(u)
    }

    /** A chain of listings from the root to `v`. */
    ghost predicate IsPath(p: seq<Id>, v: Id) {
      |p| > 0 && p[0] == ROOT && p[|p| - 1] == v && forall i :: 0 < i < |p| ==> Edge(p[i - 1], p[i])
    }

    lemma {:induction false} WithinHasPath(v: Id, n: nat) returns (p: seq<Id>)
      requires Within(v, n)
      ensures IsPath(p, v) && |p| <= n + 1
      decreases n
    {
      if v == ROOT {
        p := [v];
      } else {
        var u :| Within(u, n - 1) && v in Seen(u);
        assert Edge(u, v);
        hide Within, Seen, Edge;
        p := WithinHasPath(u, n - 1);
        p := p + [v];
      }
    }

    lemma {:induction false} PathIsWithin(p: seq<Id>, v: Id, n: nat)
      requires IsPath(p, v) && |p| <= n + 1
      ensures Within(v, n)
      decreases n
    {
      if v != ROOT {
        var u, q := p[|p| - 2], p[..|p| - 1];
        assert IsPath(q, u) by {
          hide Within, Seen, Edge;
        }
        PathIsWithin(q, u, n - 1);
        assert Edge(u, v);
        assert v in Seen(u);
      }
    }

    /** `Within` is the distance in the drive: the length of a shortest path. */
    lemma WithinIsDistance(v: Id, n: nat)
      ensures Within(v, n) <==> exists p :: IsPath(p, v) && |p| <= n + 1
    {
      hide Within, IsPath;
      if Within(v, n) {
        var p := WithinHasPath(v, n);
      }
      if p :| IsPath(p, v) && |p| <= n + 1 {
        PathIsWithin(p, v, n);
      }
    }
  }

  datatype Item = Item(id: Id, level: nat)

  ghost predicate OnceEach(ids: seq<Id>) {
    forall i, j :: 0 <= i < j < |ids| ==> ids[i] != ids[j]
  }

  lemma OnceMore(ids: seq<Id>, id: Id)
    requires OnceEach(ids) && id !in ids
    ensures OnceEach(ids + [id])
  {
  }

  datatype Outcome = Warmed | OutOfRange | TimedOut

  function Tag(ids: seq<Id>, level: nat): seq<Item> {
    seq(|ids|, i requires 0 <= i < |ids| => Item(ids[i], level))
  }

  // ---------------------------------------------------------------------------
  // Termination: the whole tree of listings still hanging below the queue
  // ---------------------------------------------------------------------------

  ghost function Weight(d: Drive, id: Id, level: nat, depth: nat): nat
    decreases depth - level, 1
  {
    1 + if level < depth then Weights(d, d.Seen(id), level + 1, depth) else 0
  }

  ghost function Weights(d: Drive, ids: seq<Id>, level: nat, depth: nat): nat
    decreases depth - level, 2, |ids|
  {
    if ids == [] then 0 else Weight(d, ids[0], level, depth) + Weights(d, ids[1..], level, depth)
  }

  ghost function QueueWeight(d: Drive, q: seq<Item>, depth: nat): nat {
    if q == [] then 0 else Weight(d, q[0].id, q[0].level, depth) + QueueWeight(d, q[1..], depth)
  }

  lemma {:induction false} QueueWeightConcat(d: Drive, q: seq<Item>, r: seq<Item>, depth: nat)
    ensures QueueWeight(d, q + r, depth) == QueueWeight(d, q, depth) + QueueWeight(d, r, depth)
    decreases |q|
  {
    if q == [] {
      assert q + r == r;
    } else {
      assert (q + r)[1..] == q[1..] + r;
      QueueWeightConcat(d, q[1..], r, depth);
    }
  }

  lemma {:induction false} TagWeight(d: Drive, ids: seq<Id>, level: nat, depth: nat)
    ensures QueueWeight(d, Tag(ids, level), depth) == Weights(d, ids, level, depth)
    decreases |ids|
  {
    if ids != [] {
      assert Tag(ids, level)[1..] == Tag(ids[1..], level);
      TagWeight(d, ids[1..], level, depth);
    }
  }

  /** Dequeuing makes the queue lighter, whether or not the folder's own folders are enqueued. */
  lemma WeightDrops(d: Drive, q: seq<Item>, depth: nat)
    requires q != []
    ensures QueueWeight(d, q[1..], depth) < QueueWeight(d, q, depth)
    ensures QueueWeight(d, Expanded(d, depth, q), depth) < QueueWeight(d, q, depth)
  {
    hide Drive.Seen, Tag;
    var x := q[0];
    if x.level < depth {
      QueueWeightConcat(d, q[1..], Tag(d.Seen(x.id), x.level + 1), depth);
      TagWeight(d, d.Seen(x.id), x.level + 1, depth);
    } else {
      assert Expanded(d, depth, q) == q[1..];
    }
  }

  // ---------------------------------------------------------------------------
  // The walk
  // ---------------------------------------------------------------------------

  /** The queue is in order of level, and holds at most two levels. */
  ghost predicate QueueOk(d: Drive, depth: nat, q: seq<Item>, cur: nat) {
    && (forall i :: 0 <= i < |q| ==> 1 <= q[i].level <= depth && cur <= q[i].level <= cur + 1 && d.Within(q[i].id, q[i].level - 1))
    && (forall i, j :: 0 <= i < j < |q| ==> q[i].level <= q[j].level)
  }

  ghost predicate LevelsOk(d: Drive, depth: nat, level: map<Id, nat>, cur: nat) {
    forall v :: v in level ==> 1 <= level[v] <= cur && level[v] <= depth && d.Within(v, level[v] - 1)
  }

  /** `c` has been visited by level `l`, or will be. */
  ghost predicate Reaches(q: seq<Item>, level: map<Id, nat>, c: Id, l: nat) {
    (c in level && level[c] <= l) || Item(c, l) in q
  }

  /** `level` is the level at which each visited folder was dequeued; `cur` the last level dequeued. */
  ghost predicate Walking(d: Drive, depth: nat, q: seq<Item>, level: map<Id, nat>, cur: nat) {
    && QueueOk(d, depth, q, cur) && LevelsOk(d, depth, level, cur)
    && Reaches(q, level, ROOT, 1)
    && (forall v, c :: v in level && level[v] < depth && c in d.Seen(v) ==> Reaches(q, level, c, level[v] + 1))
  }

  lemma TailOk(d: Drive, depth: nat, q: seq<Item>, cur: nat)
    requires QueueOk(d, depth, q, cur) && q != []
    ensures QueueOk(d, depth, q[1..], q[0].level) && cur <= q[0].level
  {
    var t := q[1..];
    assert forall i :: 0 <= i < |t| ==> t[i] == q[i + 1];
  }

  /** Dequeuing loses nothing once the dequeued folder is recorded. */
  lemma ReachesAfter(q: seq<Item>, level: map<Id, nat>, q': seq<Item>, level': map<Id, nat>, c: Id, l: nat)
    requires q != [] && Reaches(q, level, c, l)
    requires forall y :: y in q[1..] ==> y in q'
    requires forall v :: v in level ==> v in level' && level'[v] <= level[v]
    requires q[0].id in level' && level'[q[0].id] <= q[0].level
    ensures Reaches(q', level', c, l)
  {
    assert q == [q[0]] + q[1..];
  }

  /** Dequeuing a folder that was visited before. */
  lemma SkipItem(d: Drive, depth: nat, q: seq<Item>, level: map<Id, nat>, cur: nat)
    requires Walking(d, depth, q, level, cur) && q != [] && q[0].id in level
    ensures Walking(d, depth, q[1..], level, q[0].level)
  {
    TailOk(d, depth, q, cur);
    ReachesAfter(q, level, q[1..], level, ROOT, 1);
    forall v, c | v in level && level[v] < depth && c in d.Seen(v)
      ensures Reaches(q[1..], level, c, level[v] + 1)
    {
      ReachesAfter(q, level, q[1..], level, c, level[v] + 1);
    }
  }

  lemma MoreOk(d: Drive, depth: nat, q: seq<Item>, x: Item)
    requires QueueOk(d, depth, q, x.level) && 1 <= x.level < depth && d.Within(x.id, x.level - 1)
    ensures QueueOk(d, depth, q + Tag(d.Seen(x.id), x.level + 1), x.level)
  {
    var more := Tag(d.Seen(x.id), x.level + 1);
    var r := q + more;
    assert forall i :: 0 <= i < |q| ==> r[i] == q[i];
    assert forall i :: |q| <= i < |r| ==> r[i] == more[i - |q|];
    forall i | |q| <= i < |r|
      ensures d.Within(r[i].id, x.level)
    {
      assert r[i].id in d.Seen(x.id);
    }
  }

  lemma ReachesKid(q: seq<Item>, level: map<Id, nat>, ids: seq<Id>, c: Id, l: nat)
    requires c in ids
    ensures Reaches(q + Tag(ids, l), level, c, l)
  {
    var k :| 0 <= k < |ids| && ids[k] == c;
    assert Tag(ids, l)[k] == Item(c, l);
    assert Item(c, l) in Tag(ids, l);
  }

  /** The queue after dequeuing a folder for the first time. */
  function Expanded(d: Drive, depth: nat, q: seq<Item>): seq<Item>
    requires q != []
  {
    q[1..] + if q[0].level < depth then Tag(d.Seen(q[0].id), q[0].level + 1) else []
  }

  lemma ExpandedOk(d: Drive, depth: nat, q: seq<Item>, level: map<Id, nat>, cur: nat)
    requires QueueOk(d, depth, q, cur) && LevelsOk(d, depth, level, cur) && q != []
    ensures QueueOk(d, depth, Expanded(d, depth, q), q[0].level)
    ensures LevelsOk(d, depth, level[q[0].id := q[0].level], q[0].level)
  {
    hide Drive.Within, Drive.Seen;
    var x := q[0];
    TailOk(d, depth, q, cur);
    if x.level < depth {
      MoreOk(d, depth, q[1..], x);
    } else {
      assert Expanded(d, depth, q) == q[1..];
    }
  }

  /** Dequeuing a folder for the first time. */
  lemma VisitItem(d: Drive, depth: nat, q: seq<Item>, level: map<Id, nat>, cur: nat)
    requires Walking(d, depth, q, level, cur) && q != [] && q[0].id !in level
    ensures Walking(d, depth, Expanded(d, depth, q), level[q[0].id := q[0].level], q[0].level)
  {
    hide Drive.Within, Drive.Seen, QueueOk, LevelsOk, Reaches, Tag;
    ExpandedOk(d, depth, q, level, cur);
    var x, q', level' := q[0], Expanded(d, depth, q), level[q[0].id := q[0].level];
    ReachesAfter(q, level, q', level', ROOT, 1);
    forall v, c | v in level' && level'[v] < depth && c in d.Seen(v)
      ensures Reaches(q', level', c, level'[v] + 1)
    {
      if v == x.id {
        ReachesKid(q[1..], level', d.Seen(v), c, x.level + 1);
      } else {
        ReachesAfter(q, level, q', level', c, level[v] + 1);
      }
    }
  }

  /** When the queue runs dry, every folder close enough has been visited, at its distance. */
  lemma {:induction false} WalkComplete(d: Drive, depth: nat, level: map<Id, nat>, cur: nat, v: Id, n: nat)
    requires Walking(d, depth, [], level, cur) && n < depth && d.Within(v, n)
    ensures v in level && level[v] <= n + 1
    decreases n
  {
    if v != ROOT {
      var u :| d.Within(u, n - 1) && v in d.Seen(u);
      WalkComplete(d, depth, level, cur, u, n - 1);
    }
  }

  lemma {:induction false} WithinMonotone(d: Drive, v: Id, m: nat, n: nat)
    requires d.Within(v, m) && m <= n
    ensures d.Within(v, n)
    decreases m
  {
    if v != ROOT {
      var u :| d.Within(u, m - 1) && v in d.Seen(u);
      WithinMonotone(d, u, m - 1, n - 1);
    }
  }

  /**
   * Lists the folders less than `depth` steps below the root, each exactly once, on any folder graph.
   * `deadline` is the number of dequeues after which the context is done, if it ever is.
   */
  method Warm(d: Drive, depth: int, deadline: Option<nat>) returns (listed: seq<Id>, r: Outcome)
    ensures r == OutOfRange <==> depth < 0 || depth > 10
    ensures !(1 <= depth <= 10) ==> listed == []
    ensures OnceEach(listed)
    ensures forall v :: v in listed ==> depth > 0 && d.Within(v, depth - 1)
    ensures r == Warmed && depth > 0 ==> forall v :: v in listed <==> d.Within(v, depth - 1)
    ensures r == Warmed && depth > 0 ==> NearestFirst(d, depth, listed)
    ensures deadline == None ==> r != TimedOut
    ensures deadline.Some? ==> |listed| <= deadline.value
  {
    listed := [];
    if depth == 0 {
      return listed, Warmed;
    }
    if depth < 0 || depth > 10 {
      return listed, OutOfRange;
    }
    listed, r := Walk(d, depth, deadline);
  }

  /** The loop of the walk, for a depth in range. */
  method Walk(d: Drive, depth: nat, deadline: Option<nat>) returns (listed: seq<Id>, r: Outcome)
    requires depth > 0
    ensures r != OutOfRange && (deadline == None ==> r != TimedOut) && OnceEach(listed)
    ensures forall v :: v in listed ==> d.Within(v, depth - 1)
    ensures r == Warmed ==> (forall v :: v in listed <==> d.Within(v, depth - 1)) && NearestFirst(d, depth, listed)
    ensures deadline.Some? ==> |listed| <= deadline.value
  {
    StartWalking(d, depth);
    listed := [];
    assert Visits(map[], {}, listed);
    hide *;
    var queue := [Item(ROOT, 1)];
    var visited: set<Id> := {};
    ghost var level: map<Id, nat> := map[];
    ghost var cur: nat := 1;
    var steps: nat := 0;
    while |queue| > 0
      invariant Walking(d, depth, queue, level, cur)
      invariant Visits(level, visited, listed)
      invariant |listed| <= steps && (deadline.Some? ==> steps <= deadline.value)
      decreases QueueWeight(d, queue, depth)
    {
      if deadline == Some(steps) {
        VisitsMean(level, visited, listed);
        Near(d, depth, queue, level, cur);
        return listed, TimedOut;
      }
      steps := steps + 1;
      ghost var front := queue[0].level;
      queue, visited, listed, level := Dequeue(d, depth, queue, visited, listed, level, cur);
      cur := front;
    }
    VisitsMean(level, visited, listed);
    WalkExact(d, depth, level, cur);
    RisingIsNearest(d, depth, level, cur, listed);
    return listed, Warmed;
  }

  /** One turn: a folder seen before is skipped, another one is listed and its own folders are queued. */
  method Dequeue(d: Drive, depth: nat, queue: seq<Item>, visited: set<Id>, listed: seq<Id>, ghost level: map<Id, nat>, ghost cur: nat)
    returns (queue': seq<Item>, visited': set<Id>, listed': seq<Id>, ghost level': map<Id, nat>)
    requires Walking(d, depth, queue, level, cur) && queue != [] && Visits(level, visited, listed)
    ensures Walking(d, depth, queue', level', queue[0].level) && Visits(level', visited', listed')
    ensures QueueWeight(d, queue', depth) < QueueWeight(d, queue, depth) && |listed'| <= |listed| + 1
  {
    hide *;
    VisitsMean(level, visited, listed);
    WeightDrops(d, queue, depth);
    var curr := queue[0];
    if curr.id in visited {
      SkipItem(d, depth, queue, level, cur);
      return queue[1..], visited, listed, level;
    }
    VisitItem(d, depth, queue, level, cur);
    OneMoreVisit(d, depth, queue, level, cur, visited, listed);
    return Expanded(d, depth, queue), visited + {curr.id}, listed + [curr.id], level[curr.id := curr.level];
  }

  lemma WalkExact(d: Drive, depth: nat, level: map<Id, nat>, cur: nat)
    requires Walking(d, depth, [], level, cur) && depth > 0
    ensures forall v :: v in level <==> d.Within(v, depth - 1)
  {
    Near(d, depth, [], level, cur);
    forall v | d.Within(v, depth - 1)
      ensures v in level
    {
      WalkComplete(d, depth, level, cur, v, depth - 1);
    }
  }

  /** The folders were dequeued level by level. */
  ghost predicate LevelsRise(level: map<Id, nat>, listed: seq<Id>) {
    && (forall i :: 0 <= i < |listed| ==> listed[i] in level)
    && (forall i, j :: 0 <= i < j < |listed| ==> level[listed[i]] <= level[listed[j]])
  }

  /** What is visited is what is listed, once each and level by level. */
  ghost predicate Visits(level: map<Id, nat>, visited: set<Id>, listed: seq<Id>) {
    visited == level.Keys && OnceEach(listed) && (forall v :: v in listed <==> v in visited) && LevelsRise(level, listed)
  }

  lemma VisitsMean(level: map<Id, nat>, visited: set<Id>, listed: seq<Id>)
    requires Visits(level, visited, listed)
    ensures visited == level.Keys && OnceEach(listed) && (forall v :: v in listed <==> v in visited) && LevelsRise(level, listed)
  {
  }

  lemma OneMoreVisit(d: Drive, depth: nat, q: seq<Item>, level: map<Id, nat>, cur: nat, visited: set<Id>, listed: seq<Id>)
    requires Walking(d, depth, q, level, cur) && q != [] && q[0].id !in level && Visits(level, visited, listed)
    ensures Visits(level[q[0].id := q[0].level], visited + {q[0].id}, listed + [q[0].id])
  {
    hide Walking, OnceEach, LevelsRise;
    OnceMore(listed, q[0].id);
    OneMoreLevel(d, depth, q, level, cur, listed);
  }

  lemma OneMoreLevel(d: Drive, depth: nat, q: seq<Item>, level: map<Id, nat>, cur: nat, listed: seq<Id>)
    requires Walking(d, depth, q, level, cur) && q != [] && q[0].id !in level && LevelsRise(level, listed)
    ensures LevelsRise(level[q[0].id := q[0].level], listed + [q[0].id])
  {
    hide Drive.Within, Drive.Seen, Reaches;
  }

  /** No folder is listed before one that is nearer to the root. */
  ghost predicate NearestFirst(d: Drive, depth: nat, listed: seq<Id>) {
    forall i, j, n :: 0 <= i < j < |listed| && 0 <= n < depth && d.Within(listed[j], n) ==> d.Within(listed[i], n)
  }

  lemma RisingIsNearest(d: Drive, depth: nat, level: map<Id, nat>, cur: nat, listed: seq<Id>)
    requires Walking(d, depth, [], level, cur) && LevelsRise(level, listed)
    ensures NearestFirst(d, depth, listed)
  {
    forall i, j, n | 0 <= i < j < |listed| && 0 <= n < depth && d.Within(listed[j], n)
      ensures d.Within(listed[i], n)
    {
      WalkComplete(d, depth, level, cur, listed[j], n);
      hide Drive.Within;
      WithinMonotone(d, listed[i], level[listed[i]] - 1, n);
    }
  }

  lemma StartWalking(d: Drive, depth: nat)
    requires depth > 0
    ensures Walking(d, depth, [Item(ROOT, 1)], map[], 1)
  {
  }

  lemma Near(d: Drive, depth: nat, q: seq<Item>, level: map<Id, nat>, cur: nat)
    requires Walking(d, depth, q, level, cur) && depth > 0
    ensures forall v :: v in level ==> d.Within(v, depth - 1)
  {
    forall v | v in level
      ensures d.Within(v, depth - 1)
    {
      WithinMonotone(d, v, level[v] - 1, depth - 1);
    }
  }
}
