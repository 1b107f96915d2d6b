/**
 * The binary-heap algorithms of Go's container/heap over a slice of keys, with the step facts that
 * the in-place heaps rely on. `le(a, b)` stands for "not Less(b, a)".
 */
module HeapOrder {

  ghost predicate TotalPreorder<K(!new)>(le: (K, K) -> bool) {
    && (forall a, b :: le(a, b) || le(b, a))
    && (forall a, b, c :: le(a, b) && le(b, c) ==> le(a, c))
  }

  function Parent(i: nat): nat
    requires i > 0
  {
    (i - 1) / 2
  }

  /** The key at `i` is not smaller than the key of its parent. */
  predicate Linked<K>(le: (K, K) -> bool, h: seq<K>, i: nat)
    requires 0 < i < |h|
  {
    le(h[Parent(i)], h[i])
  }

  ghost predicate IsHeap<K>(le: (K, K) -> bool, h: seq<K>, n: nat)
    requires n <= |h|
  {
    forall i :: 0 < i < n ==> Linked(le, h, i)
  }

  function Swap<K>(h: seq<K>, i: nat, j: nat): seq<K>
    requires i < |h| && j < |h|
  {
    h[i := h[j]][j := h[i]]
  }

  /** Keys below `j` are not smaller than the key above `j`. */
  ghost predicate Bridged<K>(le: (K, K) -> bool, h: seq<K>, n: nat, j: nat)
    requires j < n <= |h|
  {
    j > 0 ==> forall i :: 0 < i < n && Parent(i) == j ==> le(h[Parent(j)], h[i])
  }

  /** A heap except that the key at `j` may be too small for its place. */
  ghost predicate HeapButUp<K>(le: (K, K) -> bool, h: seq<K>, n: nat, j: nat)
    requires j < n <= |h|
  {
    && (forall i :: 0 < i < n && i != j ==> Linked(le, h, i))
    && Bridged(le, h, n, j)
  }

  /** A heap except that the key at `j` may be too small or too large for its place. */
  ghost predicate HeapBut<K>(le: (K, K) -> bool, h: seq<K>, n: nat, j: nat)
    requires j < n <= |h|
  {
    && (forall i :: 0 < i < n && i != j && Parent(i) != j ==> Linked(le, h, i))
    && Bridged(le, h, n, j)
  }

  lemma UpStep<K(!new)>(le: (K, K) -> bool, h: seq<K>, n: nat, j: nat)
    requires TotalPreorder(le) && 0 < j < n <= |h| && HeapButUp(le, h, n, j) && !Linked(le, h, j)
    ensures HeapButUp(le, Swap(h, Parent(j), j), n, Parent(j))
  {
    var p, h' := Parent(j), Swap(h, Parent(j), j);
    forall i | 0 < i < n && i != p
      ensures Linked(le, h', i)
    {
      if i != j {
        assert Linked(le, h, i);
      }
    }
    if p > 0 {
      assert Linked(le, h, p);
      forall i | 0 < i < n && Parent(i) == p
        ensures le(h'[Parent(p)], h'[i])
      {
        if i != j {
          assert Linked(le, h, i);
        }
      }
    }
  }

  /** The child of `i` that Down compares with. */
  function SmallChild<K>(le: (K, K) -> bool, h: seq<K>, n: nat, i: nat): nat
    requires 2 * i + 1 < n <= |h|
  {
    var j1 := 2 * i + 1;
    if j1 + 1 < n && !le(h[j1], h[j1 + 1]) then j1 + 1 else j1
  }

  lemma DownStep<K(!new)>(le: (K, K) -> bool, h: seq<K>, n: nat, i: nat)
    requires TotalPreorder(le) && 2 * i + 1 < n <= |h| && HeapBut(le, h, n, i)
    requires !le(h[i], h[SmallChild(le, h, n, i)])
    ensures var j := SmallChild(le, h, n, i);
            i < j < n && HeapBut(le, Swap(h, i, j), n, j) && Linked(le, Swap(h, i, j), j)
  {
    var j := SmallChild(le, h, n, i);
    var h' := Swap(h, i, j);
    assert Parent(j) == i;
    forall k | 0 < k < n && k != j && Parent(k) != j
      ensures Linked(le, h', k)
    {
      if k != i && Parent(k) != i {
        assert Linked(le, h, k);
      }
    }
    forall k | 0 < k < n && Parent(k) == j
      ensures le(h'[Parent(j)], h'[k])
    {
      assert Linked(le, h, k);
    }
  }

  /** Down stops: nothing is wrong below `i`. */
  lemma DownStop<K(!new)>(le: (K, K) -> bool, h: seq<K>, n: nat, i: nat)
    requires TotalPreorder(le) && i < n <= |h| && HeapBut(le, h, n, i)
    requires 2 * i + 1 < n ==> le(h[i], h[SmallChild(le, h, n, i)])
    ensures HeapButUp(le, h, n, i)
    ensures (i > 0 ==> Linked(le, h, i)) ==> IsHeap(le, h, n)
  {
    forall k | 0 < k < n && Parent(k) == i
      ensures Linked(le, h, k)
    {
      assert k == 2 * i + 1 || k == 2 * i + 2;
    }
  }

  lemma {:induction false} RootLeast<K(!new)>(le: (K, K) -> bool, h: seq<K>, n: nat, i: nat)
    requires TotalPreorder(le) && i < n <= |h| && IsHeap(le, h, n)
    ensures le(h[0], h[i])
    decreases i
  {
    if i > 0 {
      RootLeast(le, h, n, Parent(i));
      assert Linked(le, h, i);
    }
  }

  /** Replacing one key of a heap leaves at most that place wrong. */
  lemma ChangeKey<K(!new)>(le: (K, K) -> bool, h: seq<K>, h': seq<K>, n: nat, i: nat)
    requires TotalPreorder(le) && i < n <= |h| && n <= |h'| && IsHeap(le, h, n)
    requires forall k :: 0 <= k < n && k != i ==> h'[k] == h[k]
    ensures HeapBut(le, h', n, i)
  {
    forall k | 0 < k < n && k != i && Parent(k) != i
      ensures Linked(le, h', k)
    {
      assert Linked(le, h, k);
    }
    if i > 0 {
      forall k | 0 < k < n && Parent(k) == i
        ensures le(h'[Parent(i)], h'[k])
      {
        assert Linked(le, h, k) && Linked(le, h, i);
      }
    }
  }

  lemma AppendKey<K(!new)>(le: (K, K) -> bool, h: seq<K>, x: K)
    requires IsHeap(le, h, |h|)
    ensures HeapButUp(le, h + [x], |h| + 1, |h|)
  {
    forall i | 0 < i < |h|
      ensures Linked(le, h + [x], i)
    {
      assert Linked(le, h, i);
    }
  }

  // ---------------------------------------------------------------------------
  // Push and Pop on a slice of values
  // ---------------------------------------------------------------------------

  function Up<K(!new)>(le: (K, K) -> bool, h: seq<K>, j: nat): (r: seq<K>)
    requires j < |h|
    ensures |r| == |h| && multiset(r) == multiset(h)
    ensures TotalPreorder(le) && HeapButUp(le, h, |h|, j) ==> IsHeap(le, r, |r|)
    decreases j
  {
    if j == 0 || Linked(le, h, j) then h
    else
      assert TotalPreorder(le) && HeapButUp(le, h, |h|, j) ==> HeapButUp(le, Swap(h, Parent(j), j), |h|, Parent(j)) by {
        if TotalPreorder(le) && HeapButUp(le, h, |h|, j) {
          UpStep(le, h, |h|, j);
        }
      }
      Up(le, Swap(h, Parent(j), j), Parent(j))
  }

  function Down<K(!new)>(le: (K, K) -> bool, h: seq<K>, i: nat): (r: seq<K>)
    requires i < |h|
    ensures |r| == |h| && multiset(r) == multiset(h)
    ensures TotalPreorder(le) && HeapBut(le, h, |h|, i) && (i > 0 ==> Linked(le, h, i)) ==> IsHeap(le, r, |r|)
    decreases |h| - i
  {
    if 2 * i + 1 >= |h| || le(h[i], h[SmallChild(le, h, |h|, i)]) then
      assert TotalPreorder(le) && HeapBut(le, h, |h|, i) && (i > 0 ==> Linked(le, h, i)) ==> IsHeap(le, h, |h|) by {
        if TotalPreorder(le) && HeapBut(le, h, |h|, i) {
          DownStop(le, h, |h|, i);
        }
      }
      h
    else
      var j := SmallChild(le, h, |h|, i);
      assert TotalPreorder(le) && HeapBut(le, h, |h|, i) ==> HeapBut(le, Swap(h, i, j), |h|, j) && Linked(le, Swap(h, i, j), j) by {
        if TotalPreorder(le) && HeapBut(le, h, |h|, i) {
          DownStep(le, h, |h|, i);
        }
      }
      Down(le, Swap(h, i, j), j)
  }

  function Push<K(!new)>(le: (K, K) -> bool, h: seq<K>, x: K): (r: seq<K>)
    ensures multiset(r) == multiset(h) + multiset{x}
    ensures TotalPreorder(le) && IsHeap(le, h, |h|) ==> IsHeap(le, r, |r|)
  {
    assert IsHeap(le, h, |h|) ==> HeapButUp(le, h + [x], |h| + 1, |h|) by {
      if IsHeap(le, h, |h|) {
        AppendKey(le, h, x);
      }
    }
    Up(le, h + [x], |h|)
  }

  lemma MovedKeys<K>(h: seq<K>)
    requires |h| > 0
    ensures multiset(Swap(h, 0, |h| - 1)[..|h| - 1]) == multiset(h) - multiset{h[0]}
  {
    var n, swapped := |h| - 1, Swap(h, 0, |h| - 1);
    assert swapped == swapped[..n] + [h[0]];
    assert multiset(swapped) == multiset(h);
  }

  /** The heap left after removing its first key. */
  function Rest<K(!new)>(le: (K, K) -> bool, h: seq<K>): (r: seq<K>)
    requires |h| > 0
    ensures multiset(r) == multiset(h) - multiset{h[0]} && |r| == |h| - 1
    ensures TotalPreorder(le) && IsHeap(le, h, |h|) ==> IsHeap(le, r, |r|)
  {
    var n := |h| - 1;
    var moved := Swap(h, 0, n)[..n];
    MovedKeys(h);
    if n == 0 then moved
    else
      assert TotalPreorder(le) && IsHeap(le, h, |h|) ==> HeapBut(le, moved, n, 0) by {
        if TotalPreorder(le) && IsHeap(le, h, |h|) {
          ChangeKey(le, h, moved, n, 0);
        }
      }
      Down(le, moved, 0)
  }

  /** The removed key is a least one. */
  lemma PopLeast<K(!new)>(le: (K, K) -> bool, h: seq<K>, x: K)
    requires TotalPreorder(le) && IsHeap(le, h, |h|) && x in h
    ensures le(h[0], x)
  {
    var i :| 0 <= i < |h| && h[i] == x;
    RootLeast(le, h, |h|, i);
  }
}
