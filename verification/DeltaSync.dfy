/** Delta polling: the persisted link, and folder deletions carried from page to page. */
module DeltaSync {
  import opened Wrappers

  type Id = string

  /** What the cache knows of an item. `children` is None until listed; `count` is the server's child count. */
  datatype Node = Node(parent: Id, folder: bool, children: Option<set<Id>>, count: nat)

  type Tree = map<Id, Node>

  predicate HasChildren(n: Node) {
    match n.children
    case Some(ids) => ids != {}
    case None => n.folder && n.count > 0
  }

  /** A remote deletion, or any other remote change with its effect on the cache. */
  datatype Delta = Deletion(id: Id, parent: Id, folder: bool) | Change(update: Tree -> Tree)

  function RemoveChild(t: Tree, parent: Id, id: Id): Tree {
    if id !in t then t
    else
      var detached :=
        if parent in t && t[parent].children.Some?
        then t[parent := t[parent].(children := Some(t[parent].children.value - {id}))] else t;
      detached - {id}
  }

  /** A deletion of a folder that still has children in the cache is refused; nothing else ever is. */
  predicate Blocked(t: Tree, d: Delta) {
    d.Deletion? && d.parent in t && d.folder && d.id in t && HasChildren(t[d.id])
  }

  function Applied(t: Tree, d: Delta): Tree {
    match d
    case Change(update) => update(t)
    case Deletion(id, parent, _) => if parent !in t || Blocked(t, d) then t else RemoveChild(t, parent, id)
  }

  // ---------------------------------------------------------------------------
  // One pass over a list of deltas
  // ---------------------------------------------------------------------------

  /** The cache after trying each delta once, in order. */
  function After(t: Tree, ds: seq<Delta>): Tree {
    if ds == [] then t else Applied(After(t, ds[..|ds| - 1]), ds[|ds| - 1])
  }

  /** The deltas refused when each is tried once, in order. */
  function Refused(t: Tree, ds: seq<Delta>): seq<Delta> {
    if ds == [] then []
    else
      var front, last := ds[..|ds| - 1], ds[|ds| - 1];
      Refused(t, front) + if Blocked(After(t, front), last) then [last] else []
  }

  /** A delta is refused in a pass exactly if the cache built up by then blocks it. */
  lemma {:induction false} RefusedIff(t: Tree, ds: seq<Delta>, d: Delta)
    ensures d in Refused(t, ds) <==> RefusedAt(t, ds, d)
    decreases |ds|
  {
    if ds != [] {
      var n := |ds| - 1;
      var front := ds[..n];
      RefusedIff(t, front, d);
      assert forall i :: 0 <= i < n ==> front[..i] == ds[..i];
      hide After, Blocked;
      assert RefusedAt(t, ds, d) <==> RefusedAt(t, front, d) || (ds[n] == d && Blocked(After(t, front), d)) by {
        if i :| 0 <= i < n && front[i] == d && Blocked(After(t, front[..i]), d) {
          assert ds[i] == d && Blocked(After(t, ds[..i]), d);
        }
        if i :| 0 <= i < |ds| && ds[i] == d && Blocked(After(t, ds[..i]), d) {
          assert i < n ==> front[i] == d && Blocked(After(t, front[..i]), d);
        }
      }
    }
  }

  /** At some point of the pass `d` is tried and refused. */
  ghost predicate RefusedAt(t: Tree, ds: seq<Delta>, d: Delta) {
    exists i :: 0 <= i < |ds| && ds[i] == d && Blocked(After(t, ds[..i]), d)
  }

  // ---------------------------------------------------------------------------
  // When a retry succeeds
  // ---------------------------------------------------------------------------

  ghost predicate Deletions(ds: seq<Delta>) {
    forall i :: 0 <= i < |ds| ==> ds[i].Deletion?
  }

  /**
   * Deletion `i` of the list removes its item, judged from the cache before the pass: the item and its
   * parent are cached and not removed earlier in the list, and a folder has nothing left in it.
   */
  ghost predicate Goes(t: Tree, ds: seq<Delta>, i: nat)
    requires Deletions(ds) && i < |ds|
    decreases i, 2
  {
    var d := ds[i];
    && d.id in t && !GoneBy(t, ds, i, d.id)
    && d.parent in t && !GoneBy(t, ds, i, d.parent)
    && (d.folder ==> Emptied(t, ds, i, d.id))
  }

  /** One of the first `i` deletions removes `x`. */
  ghost predicate GoneBy(t: Tree, ds: seq<Delta>, i: nat, x: Id)
    requires Deletions(ds) && i <= |ds|
    decreases i, 0
  {
    exists j :: 0 <= j < i && ds[j].id == x && Goes(t, ds, j)
  }

  /** One of the first `i` deletions removes `c` and takes it out of the listing of `p`. */
  ghost predicate TakenOut(t: Tree, ds: seq<Delta>, i: nat, p: Id, c: Id)
    requires Deletions(ds) && i <= |ds|
    decreases i, 0
  {
    exists j :: 0 <= j < i && ds[j].id == c && ds[j].parent == p && Goes(t, ds, j)
  }

  /** Every listed child is taken out by the first `i` deletions; never listed, the server counts no child. */
  ghost predicate Emptied(t: Tree, ds: seq<Delta>, i: nat, x: Id)
    requires Deletions(ds) && i <= |ds| && x in t
    decreases i, 1
  {
    match t[x].children
    case Some(ids) => forall c :: c in ids ==> TakenOut(t, ds, i, x, c)
    case None => !HasChildren(t[x])
  }

  /** The cache after the first `k` deletions: who is still there, and what is still listed. */
  ghost predicate LeftBy(t: Tree, ds: seq<Delta>, k: nat, u: Tree)
    requires Deletions(ds) && k <= |ds|
  {
    && (forall x :: x in u <==> x in t && !GoneBy(t, ds, k, x))
    && (forall x :: x in u ==> u[x] == t[x].(children := u[x].children) && u[x].children.Some? == t[x].children.Some?)
    && (forall x, c :: x in u && u[x].children.Some? ==>
          (c in u[x].children.value <==> c in t[x].children.value && !TakenOut(t, ds, k, x, c)))
  }

  lemma OneMoreGone(t: Tree, ds: seq<Delta>, k: nat, x: Id)
    requires Deletions(ds) && k < |ds|
    ensures GoneBy(t, ds, k + 1, x) <==> GoneBy(t, ds, k, x) || (ds[k].id == x && Goes(t, ds, k))
  {
    hide Goes;
    if GoneBy(t, ds, k + 1, x) {
      var j :| 0 <= j < k + 1 && ds[j].id == x && Goes(t, ds, j);
    }
  }

  lemma OneMoreTaken(t: Tree, ds: seq<Delta>, k: nat, p: Id, c: Id)
    requires Deletions(ds) && k < |ds|
    ensures TakenOut(t, ds, k + 1, p, c) <==> TakenOut(t, ds, k, p, c) || (ds[k].id == c && ds[k].parent == p && Goes(t, ds, k))
  {
    hide Goes;
    if TakenOut(t, ds, k + 1, p, c) {
      var j :| 0 <= j < k + 1 && ds[j].id == c && ds[j].parent == p && Goes(t, ds, j);
    }
  }

  lemma OneMoreDeletion(t: Tree, ds: seq<Delta>, k: nat)
    requires Deletions(ds) && k < |ds|
    ensures forall x :: GoneBy(t, ds, k + 1, x) <==> GoneBy(t, ds, k, x) || (ds[k].id == x && Goes(t, ds, k))
    ensures forall p, c :: TakenOut(t, ds, k + 1, p, c) <==>
              TakenOut(t, ds, k, p, c) || (ds[k].id == c && ds[k].parent == p && Goes(t, ds, k))
  {
    hide Goes, GoneBy, TakenOut;
    forall x
      ensures GoneBy(t, ds, k + 1, x) <==> GoneBy(t, ds, k, x) || (ds[k].id == x && Goes(t, ds, k))
    {
      OneMoreGone(t, ds, k, x);
    }
    forall p, c
      ensures TakenOut(t, ds, k + 1, p, c) <==> TakenOut(t, ds, k, p, c) || (ds[k].id == c && ds[k].parent == p && Goes(t, ds, k))
    {
      OneMoreTaken(t, ds, k, p, c);
    }
  }

  /** What the cache built up by then decides is what the list and the cache before it decide. */
  lemma GoesIff(t: Tree, ds: seq<Delta>, k: nat, u: Tree)
    requires Deletions(ds) && k < |ds| && LeftBy(t, ds, k, u)
    ensures Goes(t, ds, k) <==> ds[k].id in u && ds[k].parent in u && !Blocked(u, ds[k])
  {
    var d := ds[k];
    if d.id in u {
      EmptiedIff(t, ds, k, u, d.id);
    }
  }

  lemma EmptiedIff(t: Tree, ds: seq<Delta>, k: nat, u: Tree, x: Id)
    requires Deletions(ds) && k < |ds| && LeftBy(t, ds, k, u) && x in u
    ensures x in t && (Emptied(t, ds, k, x) <==> !HasChildren(u[x]))
  {
    hide Goes, GoneBy;
    if t[x].children.Some? {
      assert forall c :: c in u[x].children.value <==> c in t[x].children.value && !TakenOut(t, ds, k, x, c);
      if !HasChildren(u[x]) {
        forall c | c in t[x].children.value
          ensures TakenOut(t, ds, k, x, c)
        {
        }
      }
    }
  }

  lemma RemoveLeft(t: Tree, ds: seq<Delta>, k: nat, u: Tree)
    requires Deletions(ds) && k < |ds| && LeftBy(t, ds, k, u) && Goes(t, ds, k) && ds[k].id in u
    ensures LeftBy(t, ds, k + 1, RemoveChild(u, ds[k].parent, ds[k].id))
  {
    hide Goes, GoneBy, TakenOut;
    OneMoreDeletion(t, ds, k);
    var d, r := ds[k], RemoveChild(u, ds[k].parent, ds[k].id);
    RemovedFrom(u, d.parent, d.id);
    hide RemoveChild;
    forall x, c | x in r && r[x].children.Some?
      ensures c in r[x].children.value <==> c in t[x].children.value && !TakenOut(t, ds, k + 1, x, c)
    {
      assert c in u[x].children.value <==> c in t[x].children.value && !TakenOut(t, ds, k, x, c);
    }
  }

  lemma RemovedFrom(u: Tree, p: Id, id: Id)
    requires id in u
    ensures var r := RemoveChild(u, p, id);
            && r.Keys == u.Keys - {id}
            && (forall x :: x in r ==> r[x] == u[x].(children := r[x].children) && r[x].children.Some? == u[x].children.Some?)
            && (forall x, c :: x in r && r[x].children.Some? ==>
                  (c in r[x].children.value <==> c in u[x].children.value && !(x == p && c == id)))
  {
  }

  lemma StayLeft(t: Tree, ds: seq<Delta>, k: nat, u: Tree)
    requires Deletions(ds) && k < |ds| && LeftBy(t, ds, k, u) && !Goes(t, ds, k)
    ensures LeftBy(t, ds, k + 1, u)
  {
    OneMoreDeletion(t, ds, k);
    hide Goes, GoneBy, TakenOut;
  }

  /** Any pass of deletions on any cache removes exactly the items whose deletion goes, and unlists no others. */
  lemma {:induction false} PassExact(t: Tree, ds: seq<Delta>, k: nat)
    requires Deletions(ds) && k <= |ds|
    ensures LeftBy(t, ds, k, After(t, ds[..k]))
    decreases k
  {
    if k > 0 {
      PassExact(t, ds, k - 1);
      assert ds[..k][..k - 1] == ds[..k - 1];
      var u := After(t, ds[..k - 1]);
      GoesIff(t, ds, k - 1, u);
      hide LeftBy, Goes, Blocked;
      if Goes(t, ds, k - 1) {
        RemoveLeft(t, ds, k - 1, u);
      } else {
        StayLeft(t, ds, k - 1, u);
      }
    } else {
      assert ds[..0] == [];
    }
  }

  /** An item is gone after a pass of deletions exactly if one of them goes. */
  lemma RetrySucceedsIff(t: Tree, ds: seq<Delta>, x: Id)
    requires Deletions(ds)
    ensures x in After(t, ds) <==> x in t && !exists j :: 0 <= j < |ds| && ds[j].id == x && Goes(t, ds, j)
  {
    PassExact(t, ds, |ds|);
    assert ds[..|ds|] == ds;
    assert GoneBy(t, ds, |ds|, x) <==> exists j :: 0 <= j < |ds| && ds[j].id == x && Goes(t, ds, j);
  }

  /** Deletion `c` of the list comes before `i` and takes a cached item out of the listing of `x`. */
  ghost predicate Before(t: Tree, ds: seq<Delta>, i: nat, x: Id, c: Id)
    requires Deletions(ds) && i <= |ds|
  {
    c in t && exists j :: 0 <= j < i && ds[j].id == c && ds[j].parent == x
  }

  /**
   * Children first: the parent of every cached item is cached and comes later if at all, and of a
   * folder every listed child comes earlier, or, if it was never listed, the server counts none.
   */
  ghost predicate BottomUp(t: Tree, ds: seq<Delta>)
    requires Deletions(ds)
  {
    forall i :: 0 <= i < |ds| && ds[i].id in t ==> ChildrenFirst(t, ds, i)
  }

  ghost predicate ChildrenFirst(t: Tree, ds: seq<Delta>, i: nat)
    requires Deletions(ds) && i < |ds| && ds[i].id in t
  {
    var d := ds[i];
    && d.parent in t && (forall j :: 0 <= j < i ==> ds[j].id != d.parent)
    && (d.folder ==>
          match t[d.id].children
          case Some(ids) => forall c :: c in ids ==> Before(t, ds, i, d.id, c)
          case None => !HasChildren(t[d.id]))
  }

  ghost predicate DistinctIds(ds: seq<Delta>)
    requires Deletions(ds)
  {
    forall i, j :: 0 <= i < j < |ds| ==> ds[i].id != ds[j].id
  }

  /** While everything before it goes, a deletion goes exactly if it comes children first. */
  lemma GoesInTurn(t: Tree, ds: seq<Delta>, i: nat)
    requires Deletions(ds) && DistinctIds(ds) && i < |ds| && ds[i].id in t
    requires forall j :: 0 <= j < i && ds[j].id in t ==> Goes(t, ds, j)
    ensures Goes(t, ds, i) <==> ChildrenFirst(t, ds, i)
  {
    var d := ds[i];
    assert !GoneBy(t, ds, i, d.id);
    assert d.parent in t ==> (GoneBy(t, ds, i, d.parent) <==> exists j :: 0 <= j < i && ds[j].id == d.parent);
    forall c
      ensures Before(t, ds, i, d.id, c) <==> TakenOut(t, ds, i, d.id, c)
    {
    }
  }

  lemma {:induction false} AllGo(t: Tree, ds: seq<Delta>, n: nat)
    requires Deletions(ds) && DistinctIds(ds) && n <= |ds|
    ensures (forall i :: 0 <= i < n && ds[i].id in t ==> Goes(t, ds, i)) <==>
            (forall i :: 0 <= i < n && ds[i].id in t ==> ChildrenFirst(t, ds, i))
    decreases n
  {
    hide Goes, ChildrenFirst, DistinctIds;
    if n > 0 {
      AllGo(t, ds, n - 1);
      if (forall i :: 0 <= i < n - 1 && ds[i].id in t ==> Goes(t, ds, i)) && ds[n - 1].id in t {
        GoesInTurn(t, ds, n - 1);
      }
    }
  }

  /** A pass of deletions leaves none of its items behind exactly if the list is bottom-up. */
  lemma NoneLeftIff(t: Tree, ds: seq<Delta>)
    requires Deletions(ds) && DistinctIds(ds)
    ensures (forall i :: 0 <= i < |ds| ==> ds[i].id !in After(t, ds)) <==> BottomUp(t, ds)
  {
    forall i | 0 <= i < |ds|
      ensures ds[i].id !in After(t, ds) <==> ds[i].id !in t || Goes(t, ds, i)
    {
      RetrySucceedsIff(t, ds, ds[i].id);
    }
    AllGo(t, ds, |ds|);
  }

  /** A folder retried before one of its listed children stays. */
  lemma TopDownRetryLeavesParent(t: Tree, ds: seq<Delta>, i: nat, c: Id)
    requires Deletions(ds) && i < |ds| && ds[i].id in t && ds[i].folder
    requires t[ds[i].id].children.Some? && c in t[ds[i].id].children.value
    requires forall j :: 0 <= j < |ds| && j != i ==> ds[j].id != ds[i].id
    requires forall j :: 0 <= j < i ==> ds[j].id != c
    ensures ds[i].id in After(t, ds)
  {
    assert !TakenOut(t, ds, i, ds[i].id, c);
    assert !Goes(t, ds, i);
    RetrySucceedsIff(t, ds, ds[i].id);
  }

  /** A child whose parent goes first stays in the cache: its own deletion is skipped from then on. */
  lemma ParentFirstStrandsChild(t: Tree, ds: seq<Delta>, i: nat, c: Id)
    requires Deletions(ds) && i < |ds| && Goes(t, ds, i) && c in t
    requires forall j :: 0 <= j < |ds| && ds[j].id == c ==> i < j && ds[j].parent == ds[i].id
    ensures c in After(t, ds)
  {
    RetrySucceedsIff(t, ds, c);
    forall j | 0 <= j < |ds| && ds[j].id == c
      ensures !Goes(t, ds, j)
    {
      assert GoneBy(t, ds, j, ds[i].id);
    }
  }

  /** The smallest such case: nothing is refused, and yet the child of an unlisted folder is left behind. */
  lemma UnlistedParentStrandsChild(root: Id, f: Id, c: Id)
    requires root != f && root != c && f != c
    ensures var t: Tree := map[root := Node("", true, Some({f}), 1), f := Node(root, true, None, 0), c := Node(f, true, Some({}), 0)];
            var ds := [Deletion(f, root, true), Deletion(c, f, true)];
            Refused(t, ds) == [] && c in After(t, ds) && f !in After(t, ds)
  {
    var t: Tree := map[root := Node("", true, Some({f}), 1), f := Node(root, true, None, 0), c := Node(f, true, Some({}), 0)];
    var ds := [Deletion(f, root, true), Deletion(c, f, true)];
    assert ds[..1] == [ds[0]] && ds[..1][..0] == [];
    assert After(t, ds[..1]) == RemoveChild(t, root, f);
    assert Refused(t, ds[..1]) == [];
  }

  /**
   * A folder the cache has never listed, with a positive child count from the server, is never
   * removed by deletions: removing its children does not lower that count.
   */
  lemma {:induction false} UnlistedFolderStays(t: Tree, ds: seq<Delta>, f: Id)
    requires f in t && t[f].folder && t[f].children.None? && t[f].count > 0
    requires forall i :: 0 <= i < |ds| ==> ds[i].Deletion? && (ds[i].id == f ==> ds[i].folder)
    ensures f in After(t, ds) && After(t, ds)[f] == t[f]
    decreases |ds|
  {
    if ds != [] {
      UnlistedFolderStays(t, ds[..|ds| - 1], f);
    }
  }

  // ---------------------------------------------------------------------------
  // Pages and links
  // ---------------------------------------------------------------------------

  /** A page of the delta feed; `more` says that the cycle continues with the next page. */
  datatype Page = Page(items: seq<Delta>, more: bool)

  /** The outcome of one fetch; `stored` says whether the link could be written to disk. */
  datatype Fetch = Fetched(stored: bool) | FetchFailed

  /** Whenever a page is applied, every page since `from` has been applied before it. */
  ghost predicate InOrder(log: seq<nat>, from: nat) {
    forall i, p :: 0 <= i < |log| && from <= p < log[i] ==> p in log[..i]
  }

  /** Every page from `from` up to `link` has been applied. */
  ghost predicate AppliedUpTo(log: seq<nat>, from: nat, link: nat) {
    forall p :: from <= p < link ==> p in log
  }

  lemma LogPage(log: seq<nat>, from: nat, link: nat, n: nat)
    requires InOrder(log, from) && AppliedUpTo(log, from, link) && AppliedUpTo(log, from, n)
    ensures InOrder(log + [n], from) && AppliedUpTo(log + [n], from, link) && AppliedUpTo(log + [n], from, n + 1)
  {
    var r := log + [n];
    assert r[|log|] == n;
    forall i, p | 0 <= i < |r| && from <= p < r[i]
      ensures p in r[..i]
    {
      if i < |log| {
        assert r[..i] == log[..i];
      } else {
        assert r[..i] == log;
      }
    }
  }

  /** The pages from `link` on. */
  function Range(link: nat, n: nat): seq<nat> {
    seq(n, i requires 0 <= i < n => link + i)
  }

  /** The `n` fetches from `k` on bring the pages from `link` on, all but the last of which say that more follow. */
  ghost predicate Streak(feed: nat -> Page, link: nat, fetches: seq<Fetch>, k: nat, n: nat) {
    && k + n <= |fetches|
    && (forall i :: k <= i < k + n ==> fetches[i].Fetched?)
    && (forall p :: link <= p < link + n - 1 ==> feed(p).more)
  }

  ghost predicate AllFetched(fetches: seq<Fetch>) {
    forall i :: 0 <= i < |fetches| ==> fetches[i].Fetched?
  }

  lemma StreakMore(feed: nat -> Page, link: nat, fetches: seq<Fetch>, k: nat, n: nat)
    requires Streak(feed, link, fetches, k, n) && k + n < |fetches| && fetches[k + n].Fetched?
    requires n > 0 ==> feed(link + n - 1).more
    ensures Streak(feed, link, fetches, k, n + 1)
  {
  }

  /** At `j` a fetch failed and was used up, or there is no further one. */
  ghost predicate Stopped(fetches: seq<Fetch>, j: nat, k: nat) {
    if j < |fetches| then fetches[j].FetchFailed? && k == j + 1 else k == j == |fetches|
  }

  lemma StopsAt(fetches: seq<Fetch>, j: nat)
    ensures j < |fetches| && fetches[j].FetchFailed? ==> Stopped(fetches, j, j + 1)
    ensures j == |fetches| ==> Stopped(fetches, j, j)
  {
  }

  predicate Stores(fetches: seq<Fetch>, i: nat) {
    i < |fetches| && fetches[i].Fetched? && fetches[i].stored
  }

  ghost predicate NoneStored(fetches: seq<Fetch>, a: nat, b: nat) {
    forall j :: a <= j < b ==> !Stores(fetches, j)
  }

  /** The stored link is the one after the last page whose link could be written, if there was such a page. */
  ghost predicate StoredLast(was: nat, now: nat, link: nat, fetches: seq<Fetch>, k: nat, n: nat) {
    || (now == was && NoneStored(fetches, k, k + n))
    || exists i :: k <= i < k + n && Stores(fetches, i) && NoneStored(fetches, i + 1, k + n) && now == link + (i - k) + 1
  }

  lemma StoredMore(was: nat, now: nat, link: nat, fetches: seq<Fetch>, k: nat, n: nat)
    requires StoredLast(was, now, link, fetches, k, n)
    ensures StoredLast(was, if Stores(fetches, k + n) then link + n + 1 else now, link, fetches, k, n + 1)
  {
    if Stores(fetches, k + n) {
      assert NoneStored(fetches, k + n + 1, k + n + 1);
    } else if !NoneStored(fetches, k, k + n) {
      var i :| k <= i < k + n && Stores(fetches, i) && NoneStored(fetches, i + 1, k + n) && now == link + (i - k) + 1;
      assert NoneStored(fetches, i + 1, k + n + 1);
    }
  }

  ghost function Successes(fetches: seq<Fetch>): nat {
    if fetches == [] then 0
    else Successes(fetches[..|fetches| - 1]) + if fetches[|fetches| - 1].Fetched? then 1 else 0
  }

  lemma OneMoreLink(log: seq<nat>, link: nat, n: nat)
    ensures log + Range(link, n) + [link + n] == log + Range(link, n + 1)
  {
    assert Range(link, n + 1) == Range(link, n) + [link + n];
  }

  lemma RangeEnd(link: nat, n: nat)
    ensures |Range(link, n)| == n && (n > 0 ==> Range(link, n)[n - 1] == link + n - 1)
  {
  }

  lemma JoinRanges(from: nat, k: nat, n: nat)
    ensures Range(from, k) + Range(from + k, n) == Range(from, k + n)
  {
  }

  lemma {:induction false} CountStreak(fetches: seq<Fetch>, k: nat, n: nat)
    requires k + n <= |fetches| && forall i :: k <= i < k + n ==> fetches[i].Fetched?
    ensures Successes(fetches[..k + n]) == Successes(fetches[..k]) + n
    decreases n
  {
    if n > 0 {
      CountStreak(fetches, k, n - 1);
      assert fetches[..k + n][..k + n - 1] == fetches[..k + n - 1];
    }
  }

  lemma LoopStep(feed: nat -> Page, link: nat, fetches: seq<Fetch>, k: nat, n: nat, k': nat, ok: bool, log: seq<nat>)
    requires Streak(feed, link, fetches, k, n) && (if ok then k' == k + n else Stopped(fetches, k + n, k'))
    requires k < |fetches| && (ok ==> n > 0)
    ensures k < k' <= |fetches| && |log + Range(link, n)| == |log| + n
    ensures Successes(fetches[..k']) == Successes(fetches[..k]) + n
  {
    CountStreak(fetches, k, n);
    if k' == k + n + 1 {
      assert fetches[..k'][..k + n] == fetches[..k + n];
    }
  }

  lemma NothingApplied(from: nat)
    ensures InOrder([], from) && AppliedUpTo([], from, from)
  {
  }

  lemma StillApplied(log: seq<nat>, more: seq<nat>, from: nat, link: nat)
    requires AppliedUpTo(log, from, link)
    ensures AppliedUpTo(log + more, from, link)
  {
  }

  lemma LoopStart(t: Tree, feed: nat -> Page, link: nat, fetches: seq<Fetch>)
    ensures Range(link, 0) == [] && Successes(fetches[..0]) == 0 && fetches[..|fetches|] == fetches
  {
    assert fetches[..0] == [];
  }

  /** How many pages from `link` on, of at most `n`, complete a cycle; 0 if they do not. */
  function CycleLength(feed: nat -> Page, link: nat, n: nat): (m: nat)
    ensures m <= n
    decreases n
  {
    if n == 0 then 0
    else if !feed(link).more then 1
    else
      var m := CycleLength(feed, link + 1, n - 1);
      if m == 0 then 0 else m + 1
  }

  /** The length is that of the pages up to the first one after which no more follow. */
  lemma {:induction false} CycleLengthIs(feed: nat -> Page, link: nat, n: nat, m: nat)
    requires m <= n && forall p :: link <= p < link + m - 1 ==> feed(p).more
    ensures m > 0 && !feed(link + m - 1).more ==> CycleLength(feed, link, n) == m
    ensures m == n && (m > 0 ==> feed(link + m - 1).more) ==> CycleLength(feed, link, n) == 0
    decreases n
  {
    if m > 0 && n > 0 && feed(link).more {
      CycleLengthIs(feed, link + 1, n - 1, m - 1);
    }
  }

  /** The cache after `n` pages from `link` on, cycle by cycle. */
  ghost function TreeAfter(t: Tree, feed: nat -> Page, link: nat, n: nat): Tree
    decreases n
  {
    var m := CycleLength(feed, link, n);
    if m == 0 then CycleTree(t, Pages(feed, link, n))
    else TreeAfter(CycleEnd(t, Pages(feed, link, m)), feed, link + m, n - m)
  }

  /** A complete cycle, or the last pages of all, where every fetch succeeds. */
  lemma GoodStep(t: Tree, feed: nat -> Page, link: nat, fetches: seq<Fetch>, k: nat, n: nat, k': nat, ok: bool)
    requires Streak(feed, link, fetches, k, n) && k <= |fetches| && AllFetched(fetches)
    requires ok <==> n > 0 && !feed(link + n - 1).more
    requires if ok then k' == k + n else Stopped(fetches, k + n, k')
    ensures k' == k + n && (!ok ==> k' == |fetches|)
    ensures ok ==> TreeAfter(t, feed, link, |fetches| - k) == TreeAfter(CycleEnd(t, Pages(feed, link, n)), feed, link + n, |fetches| - k')
    ensures !ok ==> TreeAfter(t, feed, link, |fetches| - k) == CycleTree(t, Pages(feed, link, n))
  {
    hide CycleTree, CycleEnd, Pages;
    CycleLengthIs(feed, link, |fetches| - k, n);
  }

  lemma LoopEnd(t: Tree, feed: nat -> Page, link: nat, fetches: seq<Fetch>)
    ensures TreeAfter(t, feed, link, 0) == t && fetches[..|fetches|] == fetches
  {
    CycleStart(t, feed, link);
  }

  class Sync {
    /** Page `n` of the feed; link `n` leads to it, and link 0 is the empty link. */
    const feed: nat -> Page
    var tree: Tree
    var stored: nat
    ghost var log: seq<nat>

    constructor (feed: nat -> Page, tree: Tree, stored: nat)
      ensures this.feed == feed && this.tree == tree && this.stored == stored && log == []
    {
      this.feed, this.tree, this.stored, log := feed, tree, stored, [];
    }

    /** Tries every delta once and collects the refused ones. */
    method Pass(ds: seq<Delta>) returns (refused: seq<Delta>)
      modifies `tree
      ensures tree == After(old(tree), ds) && refused == Refused(old(tree), ds)
    {
      refused := [];
      for i := 0 to |ds|
        invariant tree == After(old(tree), ds[..i]) && refused == Refused(old(tree), ds[..i])
      {
        assert ds[..i + 1][..i] == ds[..i];
        var d := ds[i];
        if Blocked(tree, d) {
          refused := refused + [d];
        }
        tree := Applied(tree, d);
      }
      assert ds[..|ds|] == ds;
    }

    /** One page: its deltas, its refused deletions again, then the deletions carried from earlier pages. */
    method ApplyPage(items: seq<Delta>, pending: seq<Delta>) returns (carried: seq<Delta>)
      modifies `tree
      ensures tree == PageTree(old(tree), items, pending) && carried == PageCarried(old(tree), items, pending)
    {
      var blocked := Pass(items);
      var stillBlocked := Pass(blocked);
      var merged := Pass(pending);
      carried := merged + stillBlocked;
    }

    /**
     * One delta cycle from `link`, with fetch outcomes taken from `fetches` at `k` on. It ends with the
     * cycle complete, with a failed fetch, or with the outcomes used up (the process stops). In the
     * last two cases the deletions carried so far are forgotten.
     */
    method PollAndApply(link: nat, fetches: seq<Fetch>, k: nat, ghost from: nat)
      returns (k': nat, newLink: nat, ok: bool, ghost forgotten: seq<Delta>)
      requires k <= |fetches| && InOrder(log, from) && AppliedUpTo(log, from, link) && AppliedUpTo(log, from, stored)
      modifies `tree, `stored, `log
      ensures InOrder(log, from) && AppliedUpTo(log, from, stored) && AppliedUpTo(log, from, newLink)
      ensures link <= newLink && Streak(feed, link, fetches, k, newLink - link) && log == old(log) + Range(link, newLink - link)
      ensures ok <==> link < newLink && !feed(newLink - 1).more
      ensures ok ==> k' == k + (newLink - link)
      ensures !ok ==> Stopped(fetches, k + (newLink - link), k')
      ensures StoredLast(old(stored), stored, link, fetches, k, newLink - link)
      ensures ok ==> tree == CycleEnd(old(tree), Pages(feed, link, newLink - link)) && forgotten == []
      ensures !ok ==>
                && tree == CycleTree(old(tree), Pages(feed, link, newLink - link))
                && forgotten == CyclePending(old(tree), Pages(feed, link, newLink - link))
    {
      hide InCycle, CycleTree, CyclePending, CycleEnd, Pages, Range, StoredLast, Streak, InOrder, AppliedUpTo;
      var pending;
      k', newLink, ok, pending := FetchPages(link, fetches, k, from);
      CycleSoFar(old(tree), old(stored), old(log), link, fetches, k, from, newLink, pending);
      if ok {
        LastRetry(pending, old(tree), Pages(feed, link, newLink - link));
      }
      forgotten := if ok then [] else pending;
    }

    /** The page loop of a cycle, up to the retry at its end. */
    method FetchPages(link: nat, fetches: seq<Fetch>, k: nat, ghost from: nat)
      returns (k': nat, cur: nat, ok: bool, pending: seq<Delta>)
      requires k <= |fetches| && InOrder(log, from) && AppliedUpTo(log, from, link) && AppliedUpTo(log, from, stored)
      modifies `tree, `stored, `log
      ensures InCycle(old(tree), old(stored), old(log), link, fetches, k, from, cur, pending) && link <= cur
      ensures ok <==> link < cur && !feed(cur - 1).more
      ensures if ok then k' == k + (cur - link) else Stopped(fetches, k + (cur - link), k')
    {
      ghost var t0, stored0, log0 := tree, stored, log;
      hide *;
      CycleBegins(link, fetches, k, from);
      k', cur, pending := k, link, [];
      while k' < |fetches|
        invariant k' == k + (cur - link) <= |fetches| && link <= cur && (cur > link ==> feed(cur - 1).more)
        invariant InCycle(t0, stored0, log0, link, fetches, k, from, cur, pending)
        decreases |fetches| - k'
      {
        var outcome := fetches[k'];
        if outcome.FetchFailed? {
          StopsAt(fetches, k');
          return k' + 1, cur, false, pending;
        }
        pending := FetchedPage(cur, pending, outcome.stored, t0, stored0, log0, link, fetches, k, from);
        var more := feed(cur).more;
        k', cur := k' + 1, cur + 1;
        if !more {
          return k', cur, true, pending;
        }
      }
      StopsAt(fetches, k');
      return k', cur, false, pending;
    }

    /** Where a cycle that began at `link` stands before page `cur`. */
    ghost predicate InCycle(t0: Tree, stored0: nat, log0: seq<nat>, link: nat, fetches: seq<Fetch>, k: nat, from: nat,
                            cur: nat, pending: seq<Delta>)
      reads this
    {
      && link <= cur && Streak(feed, link, fetches, k, cur - link)
      && log == log0 + Range(link, cur - link) && StoredLast(stored0, stored, link, fetches, k, cur - link)
      && tree == CycleTree(t0, Pages(feed, link, cur - link)) && pending == CyclePending(t0, Pages(feed, link, cur - link))
      && InOrder(log, from) && AppliedUpTo(log, from, cur) && AppliedUpTo(log, from, stored)
    }

    /** The retry at the end of a cycle. */
    method LastRetry(pending: seq<Delta>, ghost t0: Tree, ghost pages: seq<seq<Delta>>)
      requires tree == CycleTree(t0, pages) && pending == CyclePending(t0, pages)
      modifies `tree
      ensures tree == CycleEnd(t0, pages)
    {
      hide CycleTree, CyclePending;
      var _ := Pass(pending);
    }

    lemma CycleBegins(link: nat, fetches: seq<Fetch>, k: nat, from: nat)
      requires k <= |fetches| && InOrder(log, from) && AppliedUpTo(log, from, link) && AppliedUpTo(log, from, stored)
      ensures InCycle(tree, stored, log, link, fetches, k, from, link, [])
    {
      CycleStart(tree, feed, link);
      LoopStart(tree, feed, link, fetches);
      hide InOrder, AppliedUpTo, CycleTree, CyclePending, Pages;
    }

    lemma CycleSoFar(t0: Tree, stored0: nat, log0: seq<nat>, link: nat, fetches: seq<Fetch>, k: nat, from: nat,
                     cur: nat, pending: seq<Delta>)
      requires InCycle(t0, stored0, log0, link, fetches, k, from, cur, pending)
      ensures link <= cur && Streak(feed, link, fetches, k, cur - link)
      ensures log == log0 + Range(link, cur - link) && StoredLast(stored0, stored, link, fetches, k, cur - link)
      ensures tree == CycleTree(t0, Pages(feed, link, cur - link)) && pending == CyclePending(t0, Pages(feed, link, cur - link))
      ensures InOrder(log, from) && AppliedUpTo(log, from, cur) && AppliedUpTo(log, from, stored)
    {
    }

    /** A fetched page: applied, logged, and its link stored if it can be. */
    method FetchedPage(cur: nat, pending: seq<Delta>, storeOk: bool, ghost t0: Tree, ghost stored0: nat, ghost log0: seq<nat>,
                       ghost link: nat, ghost fetches: seq<Fetch>, ghost k: nat, ghost from: nat)
      returns (carried: seq<Delta>)
      requires InCycle(t0, stored0, log0, link, fetches, k, from, cur, pending)
      requires k + (cur - link) < |fetches| && fetches[k + (cur - link)] == Fetched(storeOk)
      requires cur > link ==> feed(cur - 1).more
      modifies `tree, `stored, `log
      ensures InCycle(t0, stored0, log0, link, fetches, k, from, cur + 1, carried)
    {
      hide CycleTree, CyclePending, Pages, PageTree, PageCarried, InOrder, AppliedUpTo, Range, StoredLast, Streak;
      CycleStep(t0, feed, link, cur - link);
      carried := ApplyPage(feed(cur).items, pending);
      LogPage(log, from, stored, cur);
      OneMoreLink(log0, link, cur - link);
      StoredMore(stored0, stored, link, fetches, k, cur - link);
      StreakMore(feed, link, fetches, k, cur - link);
      log := log + [cur];
      if storeOk {
        stored := cur + 1;
      }
    }

    /**
     * The polling loop over any pattern of fetch failures and failed link writes: pages are applied in
     * order without a gap, one for each successful fetch, and the stored link never runs ahead of
     * them. While every fetch succeeds, the log is the pages from the stored link on.
     */
    method DeltaLoop(fetches: seq<Fetch>, storedAtEnd: nat -> bool)
      requires log == []
      modifies `tree, `stored, `log
      ensures InOrder(log, old(stored)) && AppliedUpTo(log, old(stored), stored)
      ensures |log| == Successes(fetches)
      ensures AllFetched(fetches) ==>
                log == Range(old(stored), |fetches|) && tree == TreeAfter(old(tree), feed, old(stored), |fetches|)
    {
      ghost var t0, from := tree, stored;
      var link := stored;
      var k := 0;
      LoopStart(tree, feed, link, fetches);
      NothingApplied(from);
      assert Polled(t0, from, link, fetches, k);
      hide Polled;
      while k < |fetches|
        invariant 0 <= k <= |fetches| && Polled(t0, from, link, fetches, k)
        decreases |fetches| - k
      {
        link, k := Next(t0, from, link, fetches, k, storedAtEnd);
      }
      LoopEnd(tree, feed, from + k, fetches);
      PolledAll(t0, from, link, fetches);
    }

    /** Where the loop stands after `k` outcomes, about to go on from `link`. */
    ghost predicate Polled(t0: Tree, from: nat, link: nat, fetches: seq<Fetch>, k: nat)
      reads this
    {
      && k <= |fetches| && |log| == Successes(fetches[..k])
      && InOrder(log, from) && AppliedUpTo(log, from, link) && AppliedUpTo(log, from, stored)
      && (AllFetched(fetches) ==>
            && log == Range(from, k) && (k < |fetches| ==> link == from + k)
            && TreeAfter(t0, feed, from, |fetches|) == TreeAfter(tree, feed, from + k, |fetches| - k))
    }

    lemma PolledAll(t0: Tree, from: nat, link: nat, fetches: seq<Fetch>)
      requires Polled(t0, from, link, fetches, |fetches|)
      ensures InOrder(log, from) && AppliedUpTo(log, from, stored) && |log| == Successes(fetches)
      ensures AllFetched(fetches) ==> log == Range(from, |fetches|) && tree == TreeAfter(t0, feed, from, |fetches|)
    {
      hide InOrder, AppliedUpTo, TreeAfter, Range, Successes, AllFetched;
      LoopEnd(tree, feed, from + |fetches|, fetches);
    }

    method Next(ghost t0: Tree, ghost from: nat, link: nat, fetches: seq<Fetch>, k: nat, storedAtEnd: nat -> bool)
      returns (link': nat, k': nat)
      requires k < |fetches| && Polled(t0, from, link, fetches, k)
      modifies `tree, `stored, `log
      ensures k < k' <= |fetches| && Polled(t0, from, link', fetches, k')
    {
      hide InOrder, AppliedUpTo, TreeAfter, Range, Successes, AllFetched;
      var ok;
      link', k', ok := Turn(link, fetches, k, storedAtEnd, from);
      JoinRanges(from, k, k' - k);
    }

    /**
     * One turn of the polling loop: a cycle, and where to go on after it. A cycle that failed resumes at
     * the stored link, if there is one.
     */
    method Turn(link: nat, fetches: seq<Fetch>, k: nat, storedAtEnd: nat -> bool, ghost from: nat)
      returns (link': nat, k': nat, ok: bool)
      requires k < |fetches| && InOrder(log, from) && AppliedUpTo(log, from, link) && AppliedUpTo(log, from, stored)
      modifies `tree, `stored, `log
      ensures k < k' <= |fetches| && InOrder(log, from) && AppliedUpTo(log, from, link') && AppliedUpTo(log, from, stored)
      ensures |log| - |old(log)| == Successes(fetches[..k']) - Successes(fetches[..k])
      ensures ok ==> |log| > |old(log)| && link' == log[|log| - 1] + 1 && (storedAtEnd(k') ==> stored == link')
      ensures !ok ==> link' == if stored != 0 then stored else link
      ensures AllFetched(fetches) ==>
                && log == old(log) + Range(link, k' - k) && (k' < |fetches| ==> link' == link + (k' - k))
                && TreeAfter(old(tree), feed, link, |fetches| - k) == TreeAfter(tree, feed, link + (k' - k), |fetches| - k')
    {
      hide InOrder, AppliedUpTo, TreeAfter, Range, Successes, Streak, Stopped, AllFetched, StoredLast, CycleEnd, CycleTree, CyclePending;
      var newLink;
      ghost var forgotten;
      k', newLink, ok, forgotten := PollAndApply(link, fetches, k, from);
      RangeEnd(link, newLink - link);
      LoopStep(feed, link, fetches, k, newLink - link, k', ok, old(log));
      StillApplied(old(log), Range(link, newLink - link), from, link);
      if AllFetched(fetches) {
        GoodStep(old(tree), feed, link, fetches, k, newLink - link, k', ok);
        LoopEnd(tree, feed, link + (k' - k), fetches);
      }
      link' := link;
      if !ok {
        if stored != 0 {
          link' := stored;
        }
      } else {
        link' := newLink;
        if storedAtEnd(k') {
          stored := link';
        }
      }
    }
  }

  function PageTree(t: Tree, items: seq<Delta>, pending: seq<Delta>): Tree {
    After(After(After(t, items), Refused(t, items)), pending)
  }

  /** What a page hands on: deletions still refused, those from earlier pages first. */
  function PageCarried(t: Tree, items: seq<Delta>, pending: seq<Delta>): seq<Delta> {
    var t1, blocked := After(t, items), Refused(t, items);
    var t2 := After(t1, blocked);
    Refused(t2, pending) + Refused(t1, blocked)
  }

  /**
   * A deletion carried into a page is tried there and handed on exactly if it was refused; one refused
   * in the page itself is tried a second time and handed on likewise.
   */
  lemma CarriedIff(t: Tree, items: seq<Delta>, pending: seq<Delta>, d: Delta)
    ensures var t1, blocked := After(t, items), Refused(t, items);
            var t2 := After(t1, blocked);
            d in PageCarried(t, items, pending) <==> RefusedAt(t2, pending, d) || RefusedAt(t1, blocked, d)
    ensures d in PageCarried(t, items, pending) ==> d.Deletion? && d.folder && (d in items || d in pending)
  {
    var t1, blocked := After(t, items), Refused(t, items);
    RefusedIff(After(t1, blocked), pending, d);
    RefusedIff(t1, blocked, d);
    RefusedIff(t, items, d);
  }

  // ---------------------------------------------------------------------------
  // A whole cycle
  // ---------------------------------------------------------------------------

  function Pages(feed: nat -> Page, link: nat, n: nat): seq<seq<Delta>> {
    seq(n, i requires 0 <= i < n => feed(link + i).items)
  }

  lemma CycleStart(t: Tree, feed: nat -> Page, link: nat)
    ensures CycleTree(t, Pages(feed, link, 0)) == t && CyclePending(t, Pages(feed, link, 0)) == []
  {
  }

  lemma CycleStep(t: Tree, feed: nat -> Page, link: nat, n: nat)
    ensures var front, more := Pages(feed, link, n), Pages(feed, link, n + 1);
            && CycleTree(t, more) == PageTree(CycleTree(t, front), feed(link + n).items, CyclePending(t, front))
            && CyclePending(t, more) == PageCarried(CycleTree(t, front), feed(link + n).items, CyclePending(t, front))
  {
    hide PageTree, PageCarried;
    var more := Pages(feed, link, n + 1);
    assert more[..n] == Pages(feed, link, n) && more[n] == feed(link + n).items && |more| == n + 1;
  }

  /** The cache after the given pages of a cycle. */
  function CycleTree(t: Tree, pages: seq<seq<Delta>>): Tree {
    if pages == [] then t
    else
      var front := pages[..|pages| - 1];
      PageTree(CycleTree(t, front), pages[|pages| - 1], CyclePending(t, front))
  }

  /** The deletions carried out of the given pages. */
  function CyclePending(t: Tree, pages: seq<seq<Delta>>): seq<Delta> {
    if pages == [] then []
    else
      var front := pages[..|pages| - 1];
      PageCarried(CycleTree(t, front), pages[|pages| - 1], CyclePending(t, front))
  }

  /** The cache at the end of the cycle: what is still carried is tried one last time. */
  function CycleEnd(t: Tree, pages: seq<seq<Delta>>): Tree {
    After(CycleTree(t, pages), CyclePending(t, pages))
  }

  /** The cache in which page `m` tries the deletions carried into it. */
  function RetryTree(t: Tree, pages: seq<seq<Delta>>, m: nat): Tree
    requires m < |pages|
  {
    var t1 := CycleTree(t, pages[..m]);
    After(After(t1, pages[m]), Refused(t1, pages[m]))
  }

  /** At its turn in the pass `d` is applied: its parent is cached, and its item is not cached any more after it. */
  ghost predicate AppliedAt(t: Tree, ds: seq<Delta>, d: Delta)
    requires d.Deletion?
  {
    exists i :: 0 <= i < |ds| && ds[i] == d && d.parent in After(t, ds[..i]) && d.id !in Applied(After(t, ds[..i]), d)
  }

  /** At its turn in the pass `d` is skipped: its parent is not cached. */
  ghost predicate SkippedAt(t: Tree, ds: seq<Delta>, d: Delta)
    requires d.Deletion?
  {
    exists i :: 0 <= i < |ds| && ds[i] == d && d.parent !in After(t, ds[..i])
  }

  /** A deletion leaves the list with its item still cached exactly if its parent is not cached at its turn. */
  lemma LeavesCachedIff(u: Tree, d: Delta)
    requires d.Deletion?
    ensures !Blocked(u, d) && d.id in Applied(u, d) <==> d.parent !in u && d.id in u
    ensures d.parent !in u ==> Applied(u, d) == u
  {
  }

  lemma TriedOnce(t: Tree, ds: seq<Delta>, d: Delta)
    requires d in ds && d.Deletion?
    ensures RefusedAt(t, ds, d) || AppliedAt(t, ds, d) || SkippedAt(t, ds, d)
  {
    var i :| 0 <= i < |ds| && ds[i] == d;
    LeavesCachedIff(After(t, ds[..i]), d);
  }

  /** Page `m` finds `d` among the deletions carried into it, and applies or skips it. */
  ghost predicate Settles(t: Tree, pages: seq<seq<Delta>>, m: nat, d: Delta)
    requires m < |pages| && d.Deletion?
  {
    var u, pending := RetryTree(t, pages, m), CyclePending(t, pages[..m]);
    AppliedAt(u, pending, d) || SkippedAt(u, pending, d)
  }

  lemma CarriedOnce(t: Tree, pages: seq<seq<Delta>>, m: nat, d: Delta)
    requires m < |pages| && d in CyclePending(t, pages[..m]) && d.Deletion?
    ensures d in CyclePending(t, pages[..m + 1]) || Settles(t, pages, m, d)
  {
    hide After, Refused, RefusedAt, AppliedAt, SkippedAt, PageCarried, PageTree;
    var pending, t1 := CyclePending(t, pages[..m]), CycleTree(t, pages[..m]);
    assert pages[..m + 1][..m] == pages[..m];
    CarriedIff(t1, pages[m], pending, d);
    TriedOnce(RetryTree(t, pages, m), pending, d);
  }

  /** A deletion carried out of a page is carried through every later page until one applies or skips it. */
  lemma {:induction false} CarriedUntilSettled(t: Tree, pages: seq<seq<Delta>>, i: nat, j: nat, d: Delta)
    requires i <= j <= |pages| && d in CyclePending(t, pages[..i]) && d.Deletion?
    ensures d in CyclePending(t, pages[..j]) || exists m :: i <= m < j && Settles(t, pages, m, d)
    decreases j
  {
    hide CyclePending, CycleTree, Settles;
    if i < j {
      CarriedUntilSettled(t, pages, i, j - 1, d);
      if d in CyclePending(t, pages[..j - 1]) {
        CarriedOnce(t, pages, j - 1, d);
      }
    }
  }
}
