/** The binary heap of tree nodes, least frequent first (`zip_SMALLER`, `zip_pqdownheap`).
    Positions count from 1; the sons of position `k` are `2k` and `2k + 1`. */
module HuffmanHeap {

  /** Node `n` goes before node `m`: by frequency, then by the depth of its subtree. */
  predicate Smaller(f: seq<int>, d: seq<int>, n: int, m: int)
    requires 0 <= n < |f| && 0 <= m < |f| && |d| >= |f|
  {
    f[n] < f[m] || (f[n] == f[m] && d[n] <= d[m])
  }

  function SmallerAt(fc: array<int>, depth: array<int>, n: int, m: int): (r: bool)
    requires 0 <= n < fc.Length && 0 <= m < fc.Length <= depth.Length
    reads fc, depth
    ensures r == Smaller(fc[..], depth[..], n, m)
  {
    fc[n] < fc[m] || (fc[n] == fc[m] && depth[n] <= depth[m])
  }

  /** Positions `1..len` hold tree nodes. */
  predicate Nodes(h: seq<int>, len: nat, f: seq<int>)
  {
    len < |h| && forall c :: 1 <= c <= len ==> 0 <= h[c] < |f|
  }

  /** Every position from `lo` on is before its sons. */
  predicate HeapFrom(h: seq<int>, lo: nat, len: nat, f: seq<int>, d: seq<int>)
    requires Nodes(h, len, f) && |d| >= |f|
    requires lo >= 1
  {
    forall c :: 2 * lo <= c <= len ==> Smaller(f, d, h[c / 2], h[c])
  }

  /** Heap order with the value of position `k` pending, to be `v`: everything else is in
      order, and whatever is above `k` is before `v` and before the sons of `k`. */
  predicate HeapWithHole(h: seq<int>, lo: nat, len: nat, f: seq<int>, d: seq<int>, k: nat, v: int)
    requires Nodes(h, len, f) && |d| >= |f| && 0 <= v < |f|
    requires 1 <= lo <= k <= len
  {
    && (forall c :: 2 * lo <= c <= len && c != k && c / 2 != k ==> Smaller(f, d, h[c / 2], h[c]))
    && (k / 2 >= lo ==> Smaller(f, d, h[k / 2], v))
    && (k / 2 >= lo ==> forall c :: 2 * lo <= c <= len && c / 2 == k ==> Smaller(f, d, h[k / 2], h[c]))
  }

  lemma HoleFilled(h: seq<int>, lo: nat, len: nat, f: seq<int>, d: seq<int>, k: nat, v: int)
    requires Nodes(h, len, f) && |d| >= |f| && 0 <= v < |f|
    requires 1 <= lo <= k <= len
    requires HeapWithHole(h, lo, len, f, d, k, v)
    requires forall c :: 2 * lo <= c <= len && c / 2 == k ==> Smaller(f, d, v, h[c])
    ensures Nodes(h[k := v], len, f) && HeapFrom(h[k := v], lo, len, f, d)
  {
    var g := h[k := v];
    forall c | 2 * lo <= c <= len
      ensures Smaller(f, d, g[c / 2], g[c])
    {
      if c == k {
        assert g[c / 2] == h[k / 2];
      } else if c / 2 == k {
        assert g[c] == h[c];
      } else {
        assert g[c] == h[c] && g[c / 2] == h[c / 2];
      }
    }
  }

  /** Moving the least son `j` of the hole up moves the hole down. */
  lemma HoleMoves(h: seq<int>, lo: nat, len: nat, f: seq<int>, d: seq<int>, k: nat, v: int, j: nat)
    requires Nodes(h, len, f) && |d| >= |f| && 0 <= v < |f|
    requires 1 <= lo <= k && j <= len && j / 2 == k
    requires HeapWithHole(h, lo, len, f, d, k, v)
    requires forall c :: 2 * lo <= c <= len && c / 2 == k ==> Smaller(f, d, h[j], h[c])
    requires !Smaller(f, d, v, h[j])
    ensures Nodes(h[k := h[j]], len, f) && HeapWithHole(h[k := h[j]], lo, len, f, d, j, v)
  {
    var g := h[k := h[j]];
    forall c | 2 * lo <= c <= len && c != j && c / 2 != j
      ensures Smaller(f, d, g[c / 2], g[c])
    {
      if c == k {
        assert k / 2 >= lo;
        assert g[c / 2] == h[k / 2];
      } else if c / 2 == k {
        assert g[c] == h[c];
      } else {
        assert g[c] == h[c] && g[c / 2] == h[c / 2];
      }
    }
    forall c | 2 * lo <= c <= len && c / 2 == j
      ensures Smaller(f, d, g[j / 2], g[c])
    {
      assert g[c] == h[c] && Smaller(f, d, h[c / 2], h[c]);
    }
  }

  /** The first position of a heap holds a least node. */
  lemma {:induction false} RootIsLeast(h: seq<int>, len: nat, f: seq<int>, d: seq<int>, c: nat)
    requires Nodes(h, len, f) && |d| >= |f|
    requires HeapFrom(h, 1, len, f, d) && 1 <= c <= len
    ensures Smaller(f, d, h[1], h[c])
    decreases c
  {
    if c > 1 {
      RootIsLeast(h, len, f, d, c / 2);
    }
  }

  lemma SwapPermutes(s: seq<int>, i: nat, j: nat)
    requires i < |s| && j < |s|
    ensures multiset(s[i := s[j]][j := s[i]]) == multiset(s)
  {
  }

  /** Moving the hole permutes the heap as it will be once the hole is filled. */
  lemma HolePermutes(h: seq<int>, len: nat, k: nat, v: int, j: nat)
    requires 1 <= k <= len < |h| && 1 <= j <= len && j != k
    ensures multiset(h[k := h[j]][j := v][1..len + 1]) == multiset(h[k := v][1..len + 1])
  {
    var s := h[k := v][1..len + 1];
    SwapPermutes(s, k - 1, j - 1);
    SwapShows(h, len, k, v, j);
  }

  lemma SwapShows(h: seq<int>, len: nat, k: nat, v: int, j: nat)
    requires 1 <= k <= len < |h| && 1 <= j <= len && j != k
    ensures var s := h[k := v][1..len + 1];
      h[k := h[j]][j := v][1..len + 1] == s[k - 1 := s[j - 1]][j - 1 := s[k - 1]]
  {
    var s := h[k := v][1..len + 1];
    var t := h[k := h[j]][j := v][1..len + 1];
    var t' := s[k - 1 := s[j - 1]][j - 1 := s[k - 1]];
    assert |t| == |t'| && forall i :: 0 <= i < |t| ==> t[i] == t'[i];
  }

  /** The least of the sons of `k`. */
  method LeastSon(heap: array<int>, heapLen: nat, fc: array<int>, depth: array<int>, k: nat)
    returns (j: nat)
    requires fc.Length <= depth.Length
    requires 1 <= k && 2 * k <= heapLen && Nodes(heap[..], heapLen, fc[..])
    ensures j / 2 == k && j <= heapLen
    ensures forall c :: 2 <= c <= heapLen && c / 2 == k ==> Smaller(fc[..], depth[..], heap[j], heap[c])
  {
    j := 2 * k;
    if j < heapLen && SmallerAt(fc, depth, heap[j + 1], heap[j]) {
      j := j + 1;
    }
    forall c | 2 <= c <= heapLen && c / 2 == k
      ensures Smaller(fc[..], depth[..], heap[j], heap[c])
    {
      assert c == 2 * k || c == 2 * k + 1;
    }
  }

  /** What the loop of `zip_pqdownheap` keeps: filling the hole `k` with `v` would give a
      permutation of the original heap `h0`, in order except below `k`. */
  predicate Sifting(h: seq<int>, h0: seq<int>, lo: nat, len: nat, f: seq<int>, d: seq<int>, k: nat, v: int)
    requires |d| >= |f| && 1 <= lo
  {
    && 0 <= v < |f| && lo <= k <= len < |h| == |h0|
    && Nodes(h, len, f)
    && HeapWithHole(h, lo, len, f, d, k, v)
    && multiset(h[k := v][1..len + 1]) == multiset(h0[1..len + 1])
    && (forall c :: 0 <= c < |h| && !(lo <= c <= len) ==> h[c] == h0[c])
  }

  lemma SiftStarts(h0: seq<int>, lo: nat, len: nat, f: seq<int>, d: seq<int>)
    requires |d| >= |f| && 1 <= lo <= len && Nodes(h0, len, f) && HeapFrom(h0, lo + 1, len, f, d)
    ensures Sifting(h0, h0, lo, len, f, d, lo, h0[lo])
  {
    assert h0[lo := h0[lo]] == h0;
  }

  lemma SiftMoves(h: seq<int>, h0: seq<int>, lo: nat, len: nat, f: seq<int>, d: seq<int>, k: nat, v: int, j: nat)
    requires |d| >= |f| && 1 <= lo && Sifting(h, h0, lo, len, f, d, k, v)
    requires j <= len && j / 2 == k && !Smaller(f, d, v, h[j])
    requires forall c :: 2 <= c <= len && c / 2 == k ==> Smaller(f, d, h[j], h[c])
    ensures Sifting(h[k := h[j]], h0, lo, len, f, d, j, v)
  {
    HoleMoves(h, lo, len, f, d, k, v, j);
    HolePermutes(h, len, k, v, j);
  }

  lemma SiftEnds(h: seq<int>, h0: seq<int>, lo: nat, len: nat, f: seq<int>, d: seq<int>, k: nat, v: int)
    requires |d| >= |f| && 1 <= lo && Sifting(h, h0, lo, len, f, d, k, v)
    requires forall c :: 2 <= c <= len && c / 2 == k ==> Smaller(f, d, v, h[c])
    ensures Nodes(h[k := v], len, f) && HeapFrom(h[k := v], lo, len, f, d)
    ensures multiset(h[k := v][1..len + 1]) == multiset(h0[1..len + 1])
    ensures forall c :: 0 <= c < |h| && !(lo <= c <= len) ==> h[k := v][c] == h0[c]
  {
    HoleFilled(h, lo, len, f, d, k, v);
  }

  lemma SiftRange(h: seq<int>, h0: seq<int>, lo: nat, len: nat, f: seq<int>, d: seq<int>, k: nat, v: int)
    requires |d| >= |f| && 1 <= lo && Sifting(h, h0, lo, len, f, d, k, v)
    ensures 0 <= v < |f| && lo <= k <= len < |h| == |h0| && Nodes(h, len, f)
  {
  }

  lemma NotAboveSons(h: seq<int>, len: nat, f: seq<int>, d: seq<int>, k: nat, v: int, j: nat)
    requires |d| >= |f| && 0 <= v < |f| && Nodes(h, len, f) && 1 <= j <= len && Smaller(f, d, v, h[j])
    requires forall c :: 2 <= c <= len && c / 2 == k ==> Smaller(f, d, h[j], h[c])
    ensures forall c :: 2 <= c <= len && c / 2 == k ==> Smaller(f, d, v, h[c])
  {
  }

  /** `zip_pqdownheap`: moves the node at `k` down until it is before both its sons. */
  method PqDownHeap(heap: array<int>, heapLen: nat, fc: array<int>, depth: array<int>, k0: nat)
    requires heap != fc && heap != depth && fc.Length <= depth.Length
    requires 1 <= k0 <= heapLen && Nodes(heap[..], heapLen, fc[..])
    requires HeapFrom(heap[..], k0 + 1, heapLen, fc[..], depth[..])
    modifies heap
    ensures Nodes(heap[..], heapLen, fc[..])
    ensures HeapFrom(heap[..], k0, heapLen, fc[..], depth[..])
    ensures multiset(heap[..][1..heapLen + 1]) == multiset(old(heap[..])[1..heapLen + 1])
    ensures forall c :: 0 <= c < heap.Length && !(k0 <= c <= heapLen) ==> heap[c] == old(heap[c])
  {
    ghost var f, d, h0 := fc[..], depth[..], heap[..];
    SiftStarts(h0, k0, heapLen, f, d);
    hide Sifting, HeapFrom, Smaller;
    var k := k0;
    var v := heap[k];
    while 2 * k <= heapLen
      invariant fc[..] == f && depth[..] == d && k0 <= k <= heapLen < heap.Length && 0 <= v < |f|
      invariant Sifting(heap[..], h0, k0, heapLen, f, d, k, v)
      decreases heapLen - k
    {
      ghost var h := heap[..];
      SiftRange(h, h0, k0, heapLen, f, d, k, v);
      var j := LeastSon(heap, heapLen, fc, depth, k);
      if SmallerAt(fc, depth, v, heap[j]) {
        NotAboveSons(h, heapLen, f, d, k, v, j);
        break;
      }
      SiftMoves(h, h0, k0, heapLen, f, d, k, v, j);
      heap[k] := heap[j];
      assert heap[..] == h[k := h[j]];
      k := j;
    }
    ghost var h := heap[..];
    SiftEnds(h, h0, k0, heapLen, f, d, k, v);
    heap[k] := v;
    assert heap[..] == h[k := v];
  }
}
