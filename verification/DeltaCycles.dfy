/** Whole delta cycles: which deletions succeed, whichever pages they came on, and what a failed fetch forgets. */
module DeltaCycles {
  import opened Wrappers
  import opened DeltaSync

  /** Only folder deletions are ever carried. */
  lemma CarriesDeletions(t: Tree, pages: seq<seq<Delta>>)
    ensures Deletions(CyclePending(t, pages)) && forall d :: d in CyclePending(t, pages) ==> d.folder
  {
    if pages != [] {
      var front := pages[..|pages| - 1];
      forall d | d in CyclePending(t, pages)
        ensures d.Deletion? && d.folder
      {
        CarriedIff(CycleTree(t, front), pages[|pages| - 1], CyclePending(t, front), d);
      }
    }
  }

  // ---------------------------------------------------------------------------
  // Changes
  // ---------------------------------------------------------------------------

  /** The changes made one after the other, the first one first. */
  function Changed(t: Tree, us: seq<Tree -> Tree>): Tree
    decreases |us|
  {
    if us == [] then t else Changed(us[0](t), us[1..])
  }

  function Changes(us: seq<Tree -> Tree>): seq<Delta> {
    seq(|us|, i requires 0 <= i < |us| => Change(us[i]))
  }

  /** A pass over changes makes them all, in order, and refuses none. */
  lemma {:induction false} ChangesApply(t: Tree, us: seq<Tree -> Tree>)
    ensures After(t, Changes(us)) == Changed(t, us) && Refused(t, Changes(us)) == []
    decreases |us|
  {
    if us != [] {
      var n := |us| - 1;
      ChangesApply(t, us[..n]);
      assert Changes(us)[..n] == Changes(us[..n]);
      LastChange(t, us);
    }
  }

  lemma {:induction false} LastChange(t: Tree, us: seq<Tree -> Tree>)
    requires us != []
    ensures Changed(t, us) == us[|us| - 1](Changed(t, us[..|us| - 1]))
    decreases |us|
  {
    if |us| > 1 {
      LastChange(us[0](t), us[1..]);
      assert us[1..][..|us| - 2] == us[..|us| - 1][1..];
    } else {
      assert us[..0] == [] && us[1..] == [];
    }
  }

  /** So does a page of changes, which hands on only what was carried into it and is refused again. */
  lemma ChangePage(t: Tree, us: seq<Tree -> Tree>, pending: seq<Delta>)
    ensures PageTree(t, Changes(us), pending) == After(Changed(t, us), pending)
    ensures PageCarried(t, Changes(us), pending) == Refused(Changed(t, us), pending)
  {
    ChangesApply(t, us);
    hide Changed, Changes;
    assert Refused(Changed(t, us), pending) + [] == Refused(Changed(t, us), pending);
  }

  // ---------------------------------------------------------------------------
  // Settled deletions
  // ---------------------------------------------------------------------------

  /** Trying `d` again changes nothing, now or after any further deletions. */
  predicate Settled(u: Tree, d: Delta) {
    d.Deletion? && (d.id !in u || d.parent !in u)
  }

  lemma SettledIdle(u: Tree, d: Delta)
    requires Settled(u, d)
    ensures Applied(u, d) == u && !Blocked(u, d)
  {
  }

  lemma UnblockedSettles(u: Tree, d: Delta)
    requires d.Deletion? && !Blocked(u, d)
    ensures Settled(Applied(u, d), d)
  {
  }

  lemma {:induction false} PassShrinks(u: Tree, ds: seq<Delta>)
    requires Deletions(ds)
    ensures After(u, ds).Keys <= u.Keys
    decreases |ds|
  {
    if ds != [] {
      PassShrinks(u, ds[..|ds| - 1]);
    }
  }

  lemma {:induction false} AfterConcat(u: Tree, a: seq<Delta>, b: seq<Delta>)
    ensures After(u, a + b) == After(After(u, a), b)
    decreases |b|
  {
    if b == [] {
      assert a + b == a;
    } else {
      var n := |b| - 1;
      AfterConcat(u, a, b[..n]);
      assert (a + b)[..|a + b| - 1] == a + b[..n];
    }
  }

  // ---------------------------------------------------------------------------
  // Leaving settled deletions out of a list
  // ---------------------------------------------------------------------------

  /** `kept` is `full` without some deletions that are settled in `u`. */
  ghost predicate Thins(u: Tree, full: seq<Delta>, kept: seq<Delta>)
    decreases |full|
  {
    if full == [] then kept == []
    else
      var last, front := full[|full| - 1], full[..|full| - 1];
      || (kept != [] && kept[|kept| - 1] == last && Thins(u, front, kept[..|kept| - 1]))
      || (Settled(u, last) && Thins(u, front, kept))
  }

  lemma {:induction false} ThinsLater(u: Tree, v: Tree, full: seq<Delta>, kept: seq<Delta>)
    requires Thins(u, full, kept) && v.Keys <= u.Keys
    ensures Thins(v, full, kept)
    decreases |full|
  {
    if full != [] {
      var last, front := full[|full| - 1], full[..|full| - 1];
      if kept != [] && kept[|kept| - 1] == last && Thins(u, front, kept[..|kept| - 1]) {
        ThinsLater(u, v, front, kept[..|kept| - 1]);
      } else {
        ThinsLater(u, v, front, kept);
      }
    }
  }

  lemma {:induction false} ThinsTwice(u: Tree, a: seq<Delta>, b: seq<Delta>, c: seq<Delta>)
    requires Thins(u, a, b) && Thins(u, b, c)
    ensures Thins(u, a, c)
    decreases |a|
  {
    if a != [] {
      var last, front := a[|a| - 1], a[..|a| - 1];
      if b != [] && b[|b| - 1] == last && Thins(u, front, b[..|b| - 1]) {
        if c != [] && c[|c| - 1] == last && Thins(u, b[..|b| - 1], c[..|c| - 1]) {
          ThinsTwice(u, front, b[..|b| - 1], c[..|c| - 1]);
        } else {
          ThinsTwice(u, front, b[..|b| - 1], c);
        }
      } else {
        ThinsTwice(u, front, b, c);
      }
    }
  }

  lemma {:induction false} ThinsConcat(u: Tree, a: seq<Delta>, a': seq<Delta>, b: seq<Delta>, b': seq<Delta>)
    requires Thins(u, a, a') && Thins(u, b, b')
    ensures Thins(u, a + b, a' + b')
    decreases |b|
  {
    if b == [] {
      assert a + b == a && a' + b' == a';
    } else {
      var last, front := b[|b| - 1], b[..|b| - 1];
      assert (a + b)[..|a + b| - 1] == a + front;
      if b' != [] && b'[|b'| - 1] == last && Thins(u, front, b'[..|b'| - 1]) {
        assert (a' + b')[..|a' + b'| - 1] == a' + b'[..|b'| - 1];
        ThinsConcat(u, a, a', front, b'[..|b'| - 1]);
      } else {
        ThinsConcat(u, a, a', front, b');
      }
    }
  }

  lemma {:induction false} ThinsSame(u: Tree, ds: seq<Delta>)
    ensures Thins(u, ds, ds)
    decreases |ds|
  {
    if ds != [] {
      ThinsSame(u, ds[..|ds| - 1]);
    }
  }

  /** A list and its thinned form have the same effect. */
  lemma {:induction false} ThinAfter(u: Tree, full: seq<Delta>, kept: seq<Delta>)
    requires Deletions(full) && Thins(u, full, kept)
    ensures After(u, full) == After(u, kept)
    decreases |full|
  {
    if full != [] {
      var last, front := full[|full| - 1], full[..|full| - 1];
      hide Applied;
      if kept != [] && kept[|kept| - 1] == last && Thins(u, front, kept[..|kept| - 1]) {
        ThinAfter(u, front, kept[..|kept| - 1]);
      } else {
        ThinAfter(u, front, kept);
        PassShrinks(u, front);
        SettledIdle(After(u, front), last);
      }
    }
  }

  /** What a pass does not hand on is settled. */
  lemma {:induction false} RefusedThins(u: Tree, ds: seq<Delta>)
    requires Deletions(ds)
    ensures Thins(After(u, ds), ds, Refused(u, ds)) && Deletions(Refused(u, ds))
    decreases |ds|
  {
    if ds != [] {
      var last, front := ds[|ds| - 1], ds[..|ds| - 1];
      RefusedThins(u, front);
      var v, r := After(u, front), After(u, ds);
      assert r.Keys <= v.Keys;
      ThinsLater(v, r, front, Refused(u, front));
      hide Applied, Blocked;
      if Blocked(v, last) {
        var more := Refused(u, front) + [last];
        assert Refused(u, ds) == more && more[..|more| - 1] == Refused(u, front);
      } else {
        UnblockedSettles(v, last);
        assert Refused(u, ds) == Refused(u, front);
      }
    }
  }

  // ---------------------------------------------------------------------------
  // A cycle as one list of tries
  // ---------------------------------------------------------------------------

  /** Everything seen so far: what was carried in, then the pages. */
  function Seen(carried: seq<Delta>, pages: seq<seq<Delta>>): seq<Delta> {
    if pages == [] then carried
    else Seen(carried, pages[..|pages| - 1]) + pages[|pages| - 1]
  }

  /** Each page twice, and then everything seen before it. */
  function PageTries(carried: seq<Delta>, pages: seq<seq<Delta>>): seq<Delta> {
    if pages == [] then []
    else
      var front, items := pages[..|pages| - 1], pages[|pages| - 1];
      PageTries(carried, front) + items + items + Seen(carried, front)
  }

  /** The same for a whole cycle, which ends by trying everything once more. */
  function Tries(carried: seq<Delta>, pages: seq<seq<Delta>>): seq<Delta> {
    PageTries(carried, pages) + Seen(carried, pages)
  }

  ghost predicate DeletionPages(pages: seq<seq<Delta>>) {
    forall k :: 0 <= k < |pages| ==> Deletions(pages[k])
  }

  lemma {:induction false} TriesAreDeletions(carried: seq<Delta>, pages: seq<seq<Delta>>)
    requires Deletions(carried) && DeletionPages(pages)
    ensures Deletions(Seen(carried, pages)) && Deletions(PageTries(carried, pages)) && Deletions(Tries(carried, pages))
    decreases |pages|
  {
    if pages != [] {
      TriesAreDeletions(carried, pages[..|pages| - 1]);
    }
  }

  /** One page: trying all that was seen is as good as trying what was carried. */
  lemma PageIsTries(u: Tree, items: seq<Delta>, seen: seq<Delta>, pending: seq<Delta>)
    requires Deletions(items) && Deletions(seen) && Deletions(pending) && Thins(u, seen, pending)
    ensures PageTree(u, items, pending) == After(u, items + items + seen)
    ensures Thins(PageTree(u, items, pending), seen + items, PageCarried(u, items, pending))
  {
    hide After, Refused, Thins;
    var t1, blocked := After(u, items), Refused(u, items);
    RefusedThins(u, items);
    ThinAfter(t1, items, blocked);
    var t2 := After(t1, blocked);
    PassShrinks(u, items);
    PassShrinks(t1, blocked);
    ThinsLater(u, t2, seen, pending);
    ThinAfter(t2, seen, pending);
    var t3 := After(t2, pending);
    PassShrinks(t2, pending);
    AfterConcat(u, items, items);
    AfterConcat(u, items + items, seen);
    CarriedThins(t1, t2, t3, items, blocked, seen, pending);
  }

  lemma CarriedThins(t1: Tree, t2: Tree, t3: Tree, items: seq<Delta>, blocked: seq<Delta>, seen: seq<Delta>, pending: seq<Delta>)
    requires Deletions(blocked) && Deletions(pending)
    requires t2 == After(t1, blocked) && t3 == After(t2, pending) && t3.Keys <= t2.Keys <= t1.Keys
    requires Thins(t1, items, blocked) && Thins(t2, seen, pending)
    ensures Thins(t3, seen + items, Refused(t2, pending) + Refused(t1, blocked))
  {
    hide After, Refused, Thins;
    RefusedThins(t2, pending);
    ThinsLater(t2, t3, seen, pending);
    ThinsTwice(t3, seen, pending, Refused(t2, pending));
    RefusedThins(t1, blocked);
    ThinsLater(t2, t3, blocked, Refused(t1, blocked));
    ThinsLater(t1, t3, items, blocked);
    ThinsTwice(t3, items, blocked, Refused(t1, blocked));
    ThinsConcat(t3, seen, Refused(t2, pending), items, Refused(t1, blocked));
  }

  /** After `later`, the cache is that of the tries, and what is carried is what was seen, thinned. */
  ghost predicate TriedSoFar(t: Tree, before: seq<seq<Delta>>, later: seq<seq<Delta>>) {
    var carried := CyclePending(t, before);
    && CycleTree(t, before + later) == After(CycleTree(t, before), PageTries(carried, later))
    && Thins(CycleTree(t, before + later), Seen(carried, later), CyclePending(t, before + later))
  }

  lemma {:induction false} PagesAreTries(t: Tree, before: seq<seq<Delta>>, later: seq<seq<Delta>>)
    requires DeletionPages(later)
    ensures TriedSoFar(t, before, later)
    decreases |later|
  {
    if later == [] {
      NoPageTried(t, before);
    } else {
      var n := |later| - 1;
      hide TriedSoFar;
      PagesAreTries(t, before, later[..n]);
      OneMoreTried(t, before, later[..n], later[n]);
      assert later == later[..n] + [later[n]];
    }
  }

  lemma NoPageTried(t: Tree, before: seq<seq<Delta>>)
    ensures TriedSoFar(t, before, [])
  {
    hide CycleTree, CyclePending, Thins;
    assert before + [] == before;
    ThinsSame(CycleTree(t, before), CyclePending(t, before));
  }

  lemma OneMoreTried(t: Tree, before: seq<seq<Delta>>, front: seq<seq<Delta>>, items: seq<Delta>)
    requires DeletionPages(front) && Deletions(items) && TriedSoFar(t, before, front)
    ensures TriedSoFar(t, before, front + [items])
  {
    hide Thins, After, PageTree, PageCarried, CycleTree, CyclePending, Seen, PageTries;
    var u, carried, all := CycleTree(t, before), CyclePending(t, before), before + front;
    CarriesDeletions(t, before);
    CarriesDeletions(t, all);
    TriesAreDeletions(carried, front);
    PageIsTries(CycleTree(t, all), items, Seen(carried, front), CyclePending(t, all));
    AfterConcat(u, PageTries(carried, front), items + items + Seen(carried, front));
    OneMorePage(t, all, items, carried, front);
    assert before + (front + [items]) == all + [items];
  }

  lemma OneMorePage(t: Tree, pages: seq<seq<Delta>>, items: seq<Delta>, carried: seq<Delta>, front: seq<seq<Delta>>)
    ensures CycleTree(t, pages + [items]) == PageTree(CycleTree(t, pages), items, CyclePending(t, pages))
    ensures CyclePending(t, pages + [items]) == PageCarried(CycleTree(t, pages), items, CyclePending(t, pages))
    ensures Seen(carried, front + [items]) == Seen(carried, front) + items
    ensures PageTries(carried, front + [items]) == PageTries(carried, front) + (items + items + Seen(carried, front))
  {
    hide PageTree, PageCarried;
    assert (pages + [items])[..|pages|] == pages && (front + [items])[..|front|] == front;
  }

  /**
   * From any point of a cycle on, if the pages that follow hold deletions, the rest of the cycle is one
   * pass over a list that depends on nothing but what is carried and what the pages hold.
   */
  lemma CycleIsTries(t: Tree, before: seq<seq<Delta>>, later: seq<seq<Delta>>)
    requires DeletionPages(later)
    ensures Deletions(Tries(CyclePending(t, before), later))
    ensures CycleEnd(t, before + later) == After(CycleTree(t, before), Tries(CyclePending(t, before), later))
  {
    var carried, all := CyclePending(t, before), before + later;
    CarriesDeletions(t, before);
    TriesAreDeletions(carried, later);
    PagesAreTries(t, before, later);
    hide CycleTree, CyclePending, After, Thins;
    ThinAfter(CycleTree(t, all), Seen(carried, later), CyclePending(t, all));
    AfterConcat(CycleTree(t, before), PageTries(carried, later), Seen(carried, later));
  }

  // ---------------------------------------------------------------------------
  // Ghost folders
  // ---------------------------------------------------------------------------

  /** Some try of the list removes `x`. */
  ghost predicate Removes(u: Tree, ds: seq<Delta>, x: Id)
    requires Deletions(ds)
  {
    exists j :: 0 <= j < |ds| && ds[j].id == x && Goes(u, ds, j)
  }

  /**
   * The folder of a deletion carried out of any page of a cycle is left behind at its end exactly if it
   * is cached then and none of the tries to come removes it, whether it is carried to the end or
   * dropped on the way.
   */
  lemma GhostFolderIff(t: Tree, before: seq<seq<Delta>>, later: seq<seq<Delta>>, d: Delta)
    requires d in CyclePending(t, before) && DeletionPages(later)
    ensures d.Deletion? && Deletions(Tries(CyclePending(t, before), later))
    ensures d.id in CycleEnd(t, before + later) <==>
            d.id in CycleTree(t, before) && !Removes(CycleTree(t, before), Tries(CyclePending(t, before), later), d.id)
  {
    CarriesDeletions(t, before);
    CycleIsTries(t, before, later);
    RetrySucceedsIff(CycleTree(t, before), Tries(CyclePending(t, before), later), d.id);
  }

  /** A cycle of deletions leaves none of the items it names behind exactly if its tries remove every cached one. */
  lemma NoGhostFoldersIff(t: Tree, pages: seq<seq<Delta>>)
    requires DeletionPages(pages)
    ensures Deletions(Tries([], pages))
    ensures (forall k, i :: 0 <= k < |pages| && 0 <= i < |pages[k]| ==> pages[k][i].id !in CycleEnd(t, pages)) <==>
            (forall k, i :: 0 <= k < |pages| && 0 <= i < |pages[k]| && pages[k][i].id in t ==>
               Removes(t, Tries([], pages), pages[k][i].id))
  {
    CycleIsTries(t, [], pages);
    assert [] + pages == pages;
    var ds := Tries([], pages);
    forall k, i | 0 <= k < |pages| && 0 <= i < |pages[k]|
      ensures pages[k][i].id !in CycleEnd(t, pages) <==> pages[k][i].id !in t || Removes(t, ds, pages[k][i].id)
    {
      RetrySucceedsIff(t, ds, pages[k][i].id);
    }
  }

  /** The last retry alone: a list that names no id twice leaves none of its items exactly if it is bottom-up. */
  lemma LastRetryIff(t: Tree, pages: seq<seq<Delta>>)
    ensures var u, ds := CycleTree(t, pages), CyclePending(t, pages);
            Deletions(ds) &&
            (DistinctIds(ds) ==>
             ((forall i :: 0 <= i < |ds| ==> ds[i].id !in CycleEnd(t, pages)) <==> BottomUp(u, ds)))
  {
    CarriesDeletions(t, pages);
    hide CycleTree, CyclePending, BottomUp;
    if DistinctIds(CyclePending(t, pages)) {
      NoneLeftIff(CycleTree(t, pages), CyclePending(t, pages));
    }
  }

  /**
   * A carried deletion that is dropped in the middle of a cycle: the page that empties the folder also
   * deletes its parent, which was never listed, and the folder stays although nothing is carried any more.
   */
  lemma DroppedMidCycle(root: Id, p: Id, f: Id, c: Id)
    requires root != p && root != f && root != c && p != f && p != c && f != c
    ensures var t: Tree := map[root := Node("", true, Some({p}), 1), p := Node(root, true, None, 0),
                               f := Node(p, true, Some({c}), 1), c := Node(f, false, None, 0)];
            var pages := [[Deletion(f, p, true)], [Deletion(c, f, false), Deletion(p, root, true)]];
            && CyclePending(t, pages[..1]) == pages[0] && CyclePending(t, pages) == []
            && f in CycleEnd(t, pages) && !HasChildren(CycleEnd(t, pages)[f])
  {
    var t: Tree := map[root := Node("", true, Some({p}), 1), p := Node(root, true, None, 0),
                       f := Node(p, true, Some({c}), 1), c := Node(f, false, None, 0)];
    var d, e, g := Deletion(f, p, true), Deletion(c, f, false), Deletion(p, root, true);
    assert c in t[f].children.value && Blocked(t, d);
    var v := RemoveChild(t, f, c);
    var w := RemoveChild(v, root, p);
    assert Applied(t, e) == v && Applied(v, g) == w && Applied(w, d) == w;
    assert !Blocked(t, e) && !Blocked(v, g) && !Blocked(w, d) && f in w && !HasChildren(w[f]);
    hide Applied, Blocked, RemoveChild, HasChildren;
    TwoPages(t, d, e, g);
  }

  /** A page with one refused deletion, then a page with two that go and let the first go or be skipped. */
  lemma TwoPages(t: Tree, d: Delta, e: Delta, g: Delta)
    requires Blocked(t, d) && Applied(t, d) == t && !Blocked(t, e) && !Blocked(Applied(t, e), g)
    requires !Blocked(Applied(Applied(t, e), g), d)
    ensures var pages := [[d], [e, g]];
            && CyclePending(t, pages[..1]) == [d] && CyclePending(t, pages) == []
            && CycleEnd(t, pages) == Applied(Applied(Applied(t, e), g), d)
  {
    hide Applied, Blocked;
    var pages, v := [[d], [e, g]], Applied(t, e);
    var w := Applied(v, g);
    OneTry(t, d);
    OneTry(t, e);
    OneTry(w, d);
    assert [e, g][..1] == [e];
    assert After(t, [e, g]) == w && Refused(t, [e, g]) == [];
    assert PageTree(t, [d], []) == t && PageCarried(t, [d], []) == [d];
    assert PageTree(t, [e, g], [d]) == Applied(w, d) && PageCarried(t, [e, g], [d]) == [];
    hide After, Refused, PageTree, PageCarried;
    assert pages[..1] == [] + [[d]] && pages == [[d]] + [[e, g]];
    OneMorePage(t, [], [d], [], []);
    OneMorePage(t, [[d]], [e, g], [], []);
  }

  lemma OneTry(t: Tree, d: Delta)
    ensures After(t, [d]) == Applied(t, d) && Refused(t, [d]) == if Blocked(t, d) then [d] else []
    ensures After(t, []) == t && Refused(t, []) == []
  {
    assert [d][..0] == [];
  }

  // ---------------------------------------------------------------------------
  // What a failed fetch forgets
  // ---------------------------------------------------------------------------

  /** A change that neither adds nor removes `x`, or the deletion of another item. */
  ghost predicate Spared(d: Delta, x: Id) {
    match d
    case Deletion(id, _, _) => id != x
    case Change(update) => forall u: Tree :: x in update(u) <==> x in u
  }

  ghost predicate Spares(ds: seq<Delta>, x: Id) {
    forall i :: 0 <= i < |ds| ==> Spared(ds[i], x)
  }

  lemma {:induction false} SparedByPass(t: Tree, ds: seq<Delta>, x: Id)
    requires Spares(ds, x)
    ensures x in After(t, ds) <==> x in t
    ensures Spares(Refused(t, ds), x)
    decreases |ds|
  {
    if ds != [] {
      var last := ds[|ds| - 1];
      SparedByPass(t, ds[..|ds| - 1], x);
      assert Spared(last, x);
    }
  }

  lemma SparedByPage(t: Tree, items: seq<Delta>, pending: seq<Delta>, x: Id)
    requires Spares(items, x) && Spares(pending, x)
    ensures x in PageTree(t, items, pending) <==> x in t
    ensures Spares(PageCarried(t, items, pending), x)
  {
    hide After, Refused, Spared;
    var t1, blocked := After(t, items), Refused(t, items);
    SparedByPass(t, items, x);
    SparedByPass(t1, blocked, x);
    SparedByPass(After(t1, blocked), pending, x);
  }

  lemma {:induction false} SparedByCycle(t: Tree, pages: seq<seq<Delta>>, x: Id)
    requires forall k :: 0 <= k < |pages| ==> Spares(pages[k], x)
    ensures x in CycleTree(t, pages) <==> x in t
    ensures Spares(CyclePending(t, pages), x)
    decreases |pages|
  {
    hide PageTree, PageCarried, Spared;
    if pages != [] {
      var front := pages[..|pages| - 1];
      SparedByCycle(t, front, x);
      SparedByPage(CycleTree(t, front), pages[|pages| - 1], CyclePending(t, front), x);
    }
  }

  /**
   * A folder whose deletion was carried when a fetch failed is cached at the end of the cycle that
   * follows exactly if it was when the fetch failed, unless a page names it again or changes bring it
   * in or out: its deletion came on a page that is not fetched again.
   */
  lemma ForgottenFolderStays(t: Tree, seen: seq<seq<Delta>>, rest: seq<seq<Delta>>, d: Delta)
    requires d in CyclePending(t, seen) && d.Deletion?
    requires forall k :: 0 <= k < |rest| ==> Spares(rest[k], d.id)
    ensures d.id in CycleEnd(CycleTree(t, seen), rest) <==> d.id in CycleTree(t, seen)
  {
    var u := CycleTree(t, seen);
    SparedByCycle(u, rest, d.id);
    SparedByPass(CycleTree(u, rest), CyclePending(u, rest), d.id);
  }
}
