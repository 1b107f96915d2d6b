/** The index-carrying heap of content files, ordered by modification time and then by path. */
module ContentEviction {
  import opened HeapOrder

  // ---------------------------------------------------------------------------
  // The order of eviction
  // ---------------------------------------------------------------------------

  datatype Key = Key(modTime: int, path: string)

  /** Go's `<=` on strings: lexicographic. */
  predicate StringLe(a: string, b: string) {
    a == [] || (b != [] && (a[0] < b[0] || (a[0] == b[0] && StringLe(a[1..], b[1..]))))
  }

  predicate KeyLe(a: Key, b: Key) {
    if a.modTime == b.modTime then StringLe(a.path, b.path) else a.modTime < b.modTime
  }

  lemma {:induction false} StringLeTotal(a: string, b: string)
    ensures StringLe(a, b) || StringLe(b, a)
    ensures StringLe(a, b) && StringLe(b, a) ==> a == b
    decreases |a|
  {
    if a != [] && b != [] {
      StringLeTotal(a[1..], b[1..]);
      assert a == [a[0]] + a[1..] && b == [b[0]] + b[1..];
    }
  }

  lemma {:induction false} StringLeTransitive(a: string, b: string, c: string)
    requires StringLe(a, b) && StringLe(b, c)
    ensures StringLe(a, c)
    decreases |a|
  {
    if a != [] && a[0] == b[0] == c[0] {
      StringLeTransitive(a[1..], b[1..], c[1..]);
    }
  }

  /** Older first, ties broken by path: a total order in which no two paths tie. */
  lemma KeyOrder()
    ensures TotalPreorder(KeyLe)
    ensures forall a, b :: KeyLe(a, b) && KeyLe(b, a) ==> a == b
  {
    forall a: Key, b: Key
      ensures KeyLe(a, b) || KeyLe(b, a)
      ensures KeyLe(a, b) && KeyLe(b, a) ==> a == b
    {
      StringLeTotal(a.path, b.path);
    }
    forall a: Key, b: Key, c: Key | KeyLe(a, b) && KeyLe(b, c)
      ensures KeyLe(a, c)
    {
      if a.modTime == b.modTime == c.modTime {
        StringLeTransitive(a.path, b.path, c.path);
      }
    }
  }

  /** `p` is a proper prefix of `q`, or has the smaller character where they first differ. */
  ghost predicate Precedes(p: string, q: string) {
    exists k :: 0 <= k <= |p| && SplitAt(p, q, k)
  }

  /** Equal up to `k`, where `p` ends or has the smaller character. */
  ghost predicate SplitAt(p: string, q: string, k: nat)
    requires k <= |p|
  {
    k < |q| && (forall i :: 0 <= i < k ==> p[i] == q[i]) && (k == |p| || p[k] < q[k])
  }

  lemma SplitLater(p: string, q: string, k: nat)
    requires p != [] && q != [] && p[0] == q[0] && k < |p|
    ensures SplitAt(p, q, k + 1) <==> SplitAt(p[1..], q[1..], k)
  {
    var p', q' := p[1..], q[1..];
    assert forall i :: 0 <= i < |p'| ==> p'[i] == p[i + 1];
    assert forall i :: 0 <= i < |q'| ==> q'[i] == q[i + 1];
    if SplitAt(p', q', k) {
      forall i | 0 <= i < k + 1
        ensures p[i] == q[i]
      {
        assert i > 0 ==> p'[i - 1] == q'[i - 1];
      }
    }
    if SplitAt(p, q, k + 1) {
      forall i | 0 <= i < k
        ensures p'[i] == q'[i]
      {
        assert p[i + 1] == q[i + 1];
      }
    }
  }

  lemma {:induction false} StringLeMeans(p: string, q: string)
    ensures StringLe(p, q) <==> p == q || Precedes(p, q)
    decreases |p|
  {
    if p == [] {
      assert q != [] ==> SplitAt(p, q, 0);
    } else if q != [] {
      StringLeMeans(p[1..], q[1..]);
      assert p == [p[0]] + p[1..] && q == [q[0]] + q[1..];
      if p[0] == q[0] {
        if k :| 0 <= k <= |p[1..]| && SplitAt(p[1..], q[1..], k) {
          SplitLater(p, q, k);
        }
        if k :| 0 <= k <= |p| && SplitAt(p, q, k) {
          SplitLater(p, q, k - 1);
        }
      } else {
        assert p[0] < q[0] ==> SplitAt(p, q, 0);
      }
    }
  }

  /** The order of eviction, said outright: the older file first, and of two equally old ones the earlier path. */
  ghost predicate Older(a: Key, b: Key) {
    a.modTime < b.modTime || (a.modTime == b.modTime && Precedes(a.path, b.path))
  }

  lemma KeyLeMeans(a: Key, b: Key)
    ensures KeyLe(a, b) <==> a == b || Older(a, b)
  {
    StringLeMeans(a.path, b.path);
  }

  lemma KeyUpStep(h: seq<Key>, n: nat, j: nat)
    requires 0 < j < n <= |h| && HeapButUp(KeyLe, h, n, j) && !Linked(KeyLe, h, j)
    ensures HeapButUp(KeyLe, HeapOrder.Swap(h, Parent(j), j), n, Parent(j))
  {
    KeyOrder();
    UpStep(KeyLe, h, n, j);
  }

  lemma KeyDownStep(h: seq<Key>, n: nat, i: nat)
    requires 2 * i + 1 < n <= |h| && HeapBut(KeyLe, h, n, i)
    requires !KeyLe(h[i], h[SmallChild(KeyLe, h, n, i)])
    ensures var j := SmallChild(KeyLe, h, n, i);
            && i < j < n && HeapBut(KeyLe, HeapOrder.Swap(h, i, j), n, j)
            && Linked(KeyLe, HeapOrder.Swap(h, i, j), j)
  {
    KeyOrder();
    DownStep(KeyLe, h, n, i);
  }

  lemma KeyChange(h: seq<Key>, h': seq<Key>, n: nat, i: nat)
    requires i < n <= |h| == |h'| && IsHeap(KeyLe, h, |h|)
    requires forall k :: 0 <= k < n && k != i ==> h'[k] == h[k]
    ensures HeapBut(KeyLe, h', n, i)
  {
    KeyOrder();
    ChangeKey(KeyLe, h, h', n, i);
  }

  lemma KeyRootLeast(h: seq<Key>, i: nat)
    requires i < |h| && IsHeap(KeyLe, h, |h|)
    ensures KeyLe(h[0], h[i])
  {
    KeyOrder();
    RootLeast(KeyLe, h, |h|, i);
  }

  lemma KeyPrefix(h: seq<Key>, n: nat)
    requires n <= |h| && IsHeap(KeyLe, h, n)
    ensures IsHeap(KeyLe, h[..n], n)
  {
    forall i | 0 < i < n
      ensures Linked(KeyLe, h[..n], i)
    {
      assert Linked(KeyLe, h, i);
    }
  }

  lemma KeyDownStop(h: seq<Key>, n: nat, i: nat)
    requires i < n <= |h| && HeapBut(KeyLe, h, n, i)
    requires 2 * i + 1 < n ==> KeyLe(h[i], h[SmallChild(KeyLe, h, n, i)])
    ensures HeapButUp(KeyLe, h, n, i)
    ensures (i > 0 ==> Linked(KeyLe, h, i)) ==> IsHeap(KeyLe, h, n)
  {
    KeyOrder();
    DownStop(KeyLe, h, n, i);
  }

  // ---------------------------------------------------------------------------
  // The index
  // ---------------------------------------------------------------------------

  /** What an eviction entry records about its content file. */
  datatype Meta = Meta(id: string, modTime: int, size: nat) {
    function Info(): FileInfo {
      FileInfo(size, modTime)
    }
  }

  /** What the operating system reports about a file. */
  datatype FileInfo = FileInfo(size: nat, modTime: int)

  type Index = map<string, Meta>

  function RankIn(meta: Index, p: string): Key {
    Key(if p in meta then meta[p].modTime else 0, p)
  }

  function KeysOf(heap: seq<string>, meta: Index): seq<Key> {
    seq(|heap|, i requires 0 <= i < |heap| => RankIn(meta, heap[i]))
  }

  /** Every entry knows its position in the heap, or knows that it is out of the heap. */
  ghost predicate Positions(heap: seq<string>, pos: map<string, int>) {
    && (forall i :: 0 <= i < |heap| ==> heap[i] in pos && pos[heap[i]] == i)
    && (forall p :: p in pos ==> pos[p] == -1 || (0 <= pos[p] < |heap| && heap[pos[p]] == p))
  }

  lemma SwapPositions(heap: seq<string>, pos: map<string, int>, i: nat, j: nat)
    requires i < |heap| && j < |heap| && Positions(heap, pos)
    ensures var pos' := pos[heap[j] := i][heap[i] := j];
            && pos'.Keys == pos.Keys && Positions(HeapOrder.Swap(heap, i, j), pos')
            && forall p :: p in pos ==> (pos'[p] == -1 <==> pos[p] == -1)
  {
  }

  lemma SwapKeys(heap: seq<string>, meta: Index, i: nat, j: nat)
    requires i < |heap| && j < |heap|
    ensures KeysOf(HeapOrder.Swap(heap, i, j), meta) == HeapOrder.Swap(KeysOf(heap, meta), i, j)
  {
  }

  /**
   * The heap of eviction entries and the map that finds an entry by its path. There is one entry per
   * path, so a heap slot refers to its entry by path; `pos` holds the entry's own `index` field.
   */
  class EvictionIndex {
    var heap: seq<string>
    var pos: map<string, int>
    var meta: Index

    /** Map and positions are of the same entries. */
    ghost predicate Indexed()
      reads this
    {
      (forall p :: p in meta <==> p in pos) && Positions(heap, pos)
    }

    ghost predicate Valid()
      reads this
    {
      Indexed() && IsHeap(KeyLe, KeysOf(heap, meta), |heap|)
    }

    /** No entry is out of the heap: heap and map hold the same entries, one to one. */
    ghost predicate Full()
      reads this
    {
      forall p :: p in pos ==> pos[p] != -1
    }

    constructor ()
      ensures Valid() && Full() && heap == [] && meta == map[]
    {
      heap, pos, meta := [], map[], map[];
    }

    method Less(i: nat, j: nat) returns (b: bool)
      requires i < |heap| && j < |heap| && Indexed()
      ensures b == !KeyLe(KeysOf(heap, meta)[j], KeysOf(heap, meta)[i])
    {
      var p, q := heap[i], heap[j];
      if meta[p].modTime == meta[q].modTime {
        b := !StringLe(q, p);
      } else {
        b := meta[p].modTime < meta[q].modTime;
      }
    }

    method Swap(i: nat, j: nat)
      requires i < |heap| && j < |heap| && Indexed()
      modifies `heap, `pos
      ensures heap == HeapOrder.Swap(old(heap), i, j) && Indexed()
      ensures KeysOf(heap, meta) == HeapOrder.Swap(KeysOf(old(heap), meta), i, j)
      ensures forall p :: p in pos ==> (pos[p] == -1 <==> old(pos)[p] == -1)
    {
      SwapPositions(heap, pos, i, j);
      SwapKeys(heap, meta, i, j);
      hide Positions, KeysOf, StringLe;
      heap := heap[i := heap[j]][j := heap[i]];
      pos := pos[heap[i] := i];
      pos := pos[heap[j] := j];
    }

    method Up(j0: nat, n: nat)
      requires j0 < n <= |heap| && Indexed() && HeapButUp(KeyLe, KeysOf(heap, meta), n, j0)
      modifies `heap, `pos
      ensures Indexed() && |heap| == old(|heap|) && IsHeap(KeyLe, KeysOf(heap, meta), n)
      ensures forall k :: n <= k < |heap| ==> heap[k] == old(heap)[k]
      ensures forall p :: p in pos ==> (pos[p] == -1 <==> old(pos)[p] == -1)
    {
      var j: nat := j0;
      while true
        invariant j < n <= |heap| && |heap| == old(|heap|) && Indexed()
        invariant HeapButUp(KeyLe, KeysOf(heap, meta), n, j)
        invariant forall k :: n <= k < |heap| ==> heap[k] == old(heap)[k]
        invariant forall p :: p in pos ==> (pos[p] == -1 <==> old(pos)[p] == -1)
        decreases j
      {
        if j == 0 {
          break;
        }
        var i := Parent(j);
        var less := Less(j, i);
        if !less {
          break;
        }
        KeyUpStep(KeysOf(heap, meta), n, j);
        Swap(i, j);
        j := i;
      }
    }

    method LesserChild(i: nat, n: nat) returns (j: nat)
      requires 2 * i + 1 < n <= |heap| && Indexed()
      ensures j == SmallChild(KeyLe, KeysOf(heap, meta), n, i)
    {
      j := 2 * i + 1;
      if j + 1 < n {
        var right := Less(j + 1, j);
        if right {
          j := j + 1;
        }
      }
    }

    /** One turn of Down's loop: `j == i` when it stops at `i`. */
    method Sink(i: nat, n: nat) returns (j: nat)
      requires i < n <= |heap| && Indexed() && HeapBut(KeyLe, KeysOf(heap, meta), n, i)
      modifies `heap, `pos
      ensures i <= j < n && Indexed() && |heap| == old(|heap|)
      ensures j == i ==> HeapButUp(KeyLe, KeysOf(heap, meta), n, i) && heap == old(heap)
      ensures j == i && (i > 0 ==> Linked(KeyLe, KeysOf(heap, meta), i)) ==> IsHeap(KeyLe, KeysOf(heap, meta), n)
      ensures j > i ==> HeapBut(KeyLe, KeysOf(heap, meta), n, j) && Linked(KeyLe, KeysOf(heap, meta), j)
      ensures forall k :: n <= k < |heap| ==> heap[k] == old(heap)[k]
      ensures forall p :: p in pos ==> (pos[p] == -1 <==> old(pos)[p] == -1)
    {
      j := i;
      if 2 * i + 1 >= n {
        KeyDownStop(KeysOf(heap, meta), n, i);
        return;
      }
      var c := LesserChild(i, n);
      var less := Less(c, i);
      if !less {
        KeyDownStop(KeysOf(heap, meta), n, i);
        return;
      }
      KeyDownStep(KeysOf(heap, meta), n, i);
      Swap(i, c);
      j := c;
    }

    method Down(i0: nat, n: nat) returns (moved: bool)
      requires i0 < n <= |heap| && Indexed() && HeapBut(KeyLe, KeysOf(heap, meta), n, i0)
      modifies `heap, `pos
      ensures Indexed() && |heap| == old(|heap|)
      ensures if moved || i0 == 0 then IsHeap(KeyLe, KeysOf(heap, meta), n)
              else HeapButUp(KeyLe, KeysOf(heap, meta), n, i0)
      ensures forall k :: n <= k < |heap| ==> heap[k] == old(heap)[k]
      ensures forall p :: p in pos ==> (pos[p] == -1 <==> old(pos)[p] == -1)
    {
      var i: nat := i0;
      while true
        invariant i0 <= i < n <= |heap| && |heap| == old(|heap|) && Indexed()
        invariant HeapBut(KeyLe, KeysOf(heap, meta), n, i) && (i > i0 ==> Linked(KeyLe, KeysOf(heap, meta), i))
        invariant forall k :: n <= k < |heap| ==> heap[k] == old(heap)[k]
        invariant forall p :: p in pos ==> (pos[p] == -1 <==> old(pos)[p] == -1)
        decreases n - i
      {
        var j := Sink(i, n);
        if j == i {
          moved := i > i0;
          return;
        }
        i := j;
      }
    }

    /** Puts an entry that is out of the heap back in. */
    method Push(p: string)
      requires Valid() && p in pos && pos[p] == -1
      modifies `heap, `pos
      ensures Valid() && |heap| == old(|heap|) + 1 && pos[p] != -1
      ensures forall q :: q in pos && q != p ==> (pos[q] == -1 <==> old(pos)[q] == -1)
    {
      ghost var keys := KeysOf(heap, meta);
      AppendKey(KeyLe, keys, RankIn(meta, p));
      pos := pos[p := |heap|];
      heap := heap + [p];
      assert KeysOf(heap, meta) == keys + [RankIn(meta, p)];
      Up(|heap| - 1, |heap|);
    }

    /** Drops the last slot, whose entry is out of the heap from then on. */
    method DropLast() returns (p: string)
      requires |heap| > 0 && Indexed() && IsHeap(KeyLe, KeysOf(heap, meta), |heap| - 1)
      modifies `heap, `pos
      ensures Valid() && |heap| == old(|heap|) - 1
      ensures p == old(heap)[|old(heap)| - 1] && p in pos && pos[p] == -1
      ensures forall q :: q in pos && q != p ==> (pos[q] == -1 <==> old(pos)[q] == -1)
    {
      var last := |heap| - 1;
      p := heap[last];
      KeyPrefix(KeysOf(heap, meta), last);
      assert KeysOf(heap, meta)[..last] == KeysOf(heap[..last], meta);
      pos := pos[p := -1];
      heap := heap[..last];
    }

    method Pop() returns (p: string)
      requires Valid() && |heap| > 0
      modifies `heap, `pos
      ensures Valid() && |heap| == old(|heap|) - 1
      ensures p in pos && old(pos)[p] != -1 && pos[p] == -1
      ensures forall q :: q in pos && q != p ==> (pos[q] == -1 <==> old(pos)[q] == -1)
      ensures forall q :: q in pos && old(pos)[q] != -1 ==> KeyLe(RankIn(meta, p), RankIn(meta, q))
    {
      var n := |heap| - 1;
      ghost var keys := KeysOf(heap, meta);
      ghost var was := pos;
      p := heap[0];
      forall q | q in pos && pos[q] != -1
        ensures KeyLe(RankIn(meta, p), RankIn(meta, q))
      {
        KeyRootLeast(keys, pos[q]);
      }
      Swap(0, n);
      if n > 0 {
        KeyChange(keys, KeysOf(heap, meta), n, 0);
        var _ := Down(0, n);
      }
      var _ := DropLast();
    }

    /** Re-establishes the order when only the key at `i` may be out of place. */
    method Fix(i: nat)
      requires i < |heap| && Indexed() && HeapBut(KeyLe, KeysOf(heap, meta), |heap|, i)
      modifies `heap, `pos
      ensures Valid() && |heap| == old(|heap|)
      ensures forall p :: p in pos ==> (pos[p] == -1 <==> old(pos)[p] == -1)
    {
      var n := |heap|;
      var moved := Down(i, n);
      if !moved {
        Up(i, n);
      }
    }

    method Remove(i: nat)
      requires Valid() && i < |heap|
      modifies `heap, `pos
      ensures Valid() && |heap| == old(|heap|) - 1
      ensures old(heap)[i] in pos && pos[old(heap)[i]] == -1
      ensures forall q :: q in pos && q != old(heap)[i] ==> (pos[q] == -1 <==> old(pos)[q] == -1)
    {
      var n := |heap| - 1;
      if n != i {
        ghost var keys := KeysOf(heap, meta);
        Swap(i, n);
        KeyChange(keys, KeysOf(heap, meta), n, i);
        var moved := Down(i, n);
        if !moved {
          Up(i, n);
        }
      }
      var _ := DropLast();
    }

    /** Records the metadata of a file: a new entry, or the entry it already has moved to its new place. */
    method Track(p: string, m: Meta)
      requires Valid()
      modifies this
      ensures Valid() && meta == old(meta)[p := m]
      ensures old(Full()) ==> Full()
    {
      ghost var keys := KeysOf(heap, meta);
      if p !in meta {
        meta := meta[p := m];
        pos := pos[p := -1];
        assert KeysOf(heap, meta) == keys;
        Push(p);
      } else {
        meta := meta[p := m];
        if pos[p] >= 0 {
          KeyChange(keys, KeysOf(heap, meta), |heap|, pos[p]);
          Fix(pos[p]);
        } else {
          assert KeysOf(heap, meta) == keys;
          Push(p);
        }
      }
    }

    /** Drops the entry of `p`, if it has one. */
    method Forget(p: string)
      requires Valid()
      modifies this
      ensures Valid() && meta == old(meta) - {p}
      ensures old(Full()) ==> Full()
    {
      if p in meta {
        if pos[p] >= 0 {
          Remove(pos[p]);
        }
        Drop(p);
      }
    }

    /** Deletes the map entry of a path that is out of the heap. */
    method Drop(p: string)
      requires Valid() && p in pos && pos[p] == -1
      modifies `meta, `pos
      ensures Valid() && meta == old(meta) - {p} && pos == old(pos) - {p}
    {
      ghost var keys := KeysOf(heap, meta);
      meta, pos := meta - {p}, pos - {p};
      assert KeysOf(heap, meta) == keys;
    }
  }
}
