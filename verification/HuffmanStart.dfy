/** The start of `zip_build_tree`: which symbols are used, the two codes that always
    exist, and the initial heap; then the whole merge loop. */
module HuffmanStart {
  import opened Options
  import opened HuffmanForest
  import opened HuffmanHeap
  import opened HuffmanBuild

  /** The largest of the first `n` symbols that is used, or -1. */
  function MaxUsed(f: seq<int>, n: nat): (m: int)
    requires n <= |f|
    ensures -1 <= m < n
    ensures m >= 0 ==> f[m] != 0
    ensures forall c :: m < c < n ==> f[c] == 0
  {
    if n == 0 then -1 else if f[n - 1] != 0 then n - 1 else MaxUsed(f, n - 1)
  }

  function Used(f: seq<int>, n: nat): set<int>
    requires n <= |f|
  {
    set c | 0 <= c < n && f[c] != 0
  }

  lemma UsedSnoc(f: seq<int>, n: nat)
    requires n < |f|
    ensures Used(f, n + 1) == if f[n] != 0 then Used(f, n) + {n} else Used(f, n)
  {
  }

  lemma HoldsMore(h: seq<int>, len: nat, s: set<int>, x: int)
    requires Holds(h, len, s) && len + 1 < |h| && x !in s
    ensures Holds(h[len + 1 := x], len + 1, s + {x})
  {
    SetPlus(s, x);
    assert h[len + 1 := x][1..len + 2] == h[1..len + 1] + [x];
  }

  lemma HoldsSize(h: seq<int>, len: nat, s: set<int>)
    requires Holds(h, len, s)
    ensures len == |s|
  {
    assert |multiset(h[1..len + 1])| == len;
    assert |multiset(s)| == |s|;
  }

  /** Puts `x` behind the nodes of `s`. */
  method Push(heap: array<int>, len: nat, x: int, ghost s: set<int>) returns (len': nat)
    requires Holds(heap[..], len, s) && len + 1 < heap.Length && x !in s
    modifies heap
    ensures len' == len + 1 && Holds(heap[..], len', s + {x})
  {
    ghost var h := heap[..];
    HoldsMore(h, len, s, x);
    len' := len + 1;
    heap[len'] := x;
    assert heap[..] == h[len' := x];
  }

  /** The first `n` symbols are sorted out: the used ones are on the heap. */
  predicate Collected(f: seq<int>, h: seq<int>, heapLen: nat, dl: seq<int>, maxCode: int, n: nat)
    requires n <= |f|
  {
    && heapLen <= n <= |dl| && Holds(h, heapLen, Used(f, n)) && maxCode == MaxUsed(f, n)
    && (forall c {:trigger dl[c]} :: 0 <= c < n && f[c] == 0 ==> dl[c] == 0)
  }

  lemma CollectsUsed(f: seq<int>, h: seq<int>, h': seq<int>, heapLen: nat, dl: seq<int>, maxCode: int, n: nat)
    requires n < |f| && n < |dl| && Collected(f, h, heapLen, dl, maxCode, n) && f[n] != 0
    requires Holds(h', heapLen + 1, Used(f, n) + {n as int})
    ensures Collected(f, h', heapLen + 1, dl, n, n + 1)
  {
    UsedSnoc(f, n);
  }

  lemma CollectsUnused(f: seq<int>, h: seq<int>, heapLen: nat, dl: seq<int>, maxCode: int, n: nat)
    requires n < |f| && n < |dl| && Collected(f, h, heapLen, dl, maxCode, n) && f[n] == 0
    ensures Collected(f, h, heapLen, dl[n := 0], maxCode, n + 1)
  {
    UsedSnoc(f, n);
  }

  /** `zip_depth` is 0 for the used ones among the first `n` symbols. */
  predicate AtBottom(f: seq<int>, d: seq<int>, n: nat)
    requires n <= |f| && n <= |d|
  {
    forall c {:trigger d[c]} :: 0 <= c < n && f[c] != 0 ==> d[c] == 0
  }

  /** The first loop: puts the used symbols on the heap, in order. */
  method CollectUsed(heap: array<int>, fc: array<int>, dl: array<int>, depth: array<int>, elems: nat)
    returns (heapLen: nat, maxCode: int)
    requires heap != fc && heap != dl && heap != depth && fc != dl && fc != depth && dl != depth
    requires elems <= fc.Length && elems <= dl.Length && elems <= depth.Length && elems < heap.Length
    modifies heap, dl, depth
    ensures Holds(heap[..], heapLen, Used(fc[..], elems)) && heapLen <= elems
    ensures maxCode == MaxUsed(fc[..], elems)
    ensures forall c {:trigger dl[c]} :: 0 <= c < elems && fc[c] == 0 ==> dl[c] == 0
    ensures AtBottom(fc[..], depth[..], elems)
  {
    heapLen, maxCode := 0, -1;
    var n := 0;
    ghost var f := fc[..];
    assert heap[..][1..1] == [];
    assert Collected(f, heap[..], 0, dl[..], -1, 0);
    while n < elems
      invariant fc[..] == f && n <= elems && heapLen <= n && Collected(f, heap[..], heapLen, dl[..], maxCode, n)
      invariant AtBottom(f, depth[..], n)
    {
      heapLen, maxCode := CollectOne(heap, heapLen, f, fc, dl, depth, n, maxCode);
      n := n + 1;
    }
    assert forall c {:trigger dl[c]} :: 0 <= c < elems ==> dl[c] == dl[..][c];
  }

  method CollectOne(heap: array<int>, heapLen: nat, ghost f: seq<int>, fc: array<int>, dl: array<int>,
                    depth: array<int>,
                    n: nat, maxCode: int)
    returns (heapLen': nat, maxCode': int)
    requires heap != fc && heap != dl && heap != depth && fc != dl && fc != depth && dl != depth
    requires fc[..] == f && n < fc.Length && n < dl.Length && n < depth.Length && heapLen <= n && n + 1 < heap.Length
    requires Collected(f, heap[..], heapLen, dl[..], maxCode, n) && AtBottom(f, depth[..], n)
    modifies heap, dl, depth
    ensures AtBottom(f, depth[..], n + 1)
    ensures fc[..] == f && heapLen' <= n + 1 && Collected(f, heap[..], heapLen', dl[..], maxCode', n + 1)
  {
    ghost var h, d := heap[..], dl[..];
    UsedRange(f, n);
    if fc[n] != 0 {
      hide Holds;
      heapLen' := Push(heap, heapLen, n, Used(f, n));
      maxCode' := n;
      depth[n] := 0;
      assert dl[..] == d;
      CollectsUsed(f, h, heap[..], heapLen, d, maxCode, n);
    } else {
      dl[n] := 0;
      heapLen', maxCode' := heapLen, maxCode;
      assert dl[..] == d[n := 0];
      CollectsUnused(f, h, heapLen, d, maxCode, n);
    }
  }

  lemma UsedRange(f: seq<int>, n: nat)
    requires n <= |f|
    ensures n !in Used(f, n)
  {
  }

  /** The symbol that is forced into use when `m` is the largest used one. */
  function ForcedSymbol(m: int): int { if m < 2 then m + 1 else 0 }

  /** Frequencies after forcing up to two symbols into use. */
  function Forced(f: seq<int>, used: nat): (r: seq<int>)
    requires |f| >= 3
    ensures |r| == |f|
    decreases 2 - used
  {
    if used >= 2 then f
    else Forced(f[ForcedSymbol(MaxUsed(f, |f|)) := 1], used + 1)
  }

  /** The total of `s` over the symbols that forcing brings into use. */
  function ForcedSum(f: seq<int>, used: nat, s: seq<int>): int
    requires |f| >= 3 && |s| >= 3
    decreases 2 - used
  {
    if used >= 2 then 0
    else
      var x := ForcedSymbol(MaxUsed(f, |f|));
      s[x] + ForcedSum(f[x := 1], used + 1, s)
  }

  /** A forced symbol was not in use, and is the largest one afterwards or symbol 0. */
  lemma ForcedIsNew(f: seq<int>, used: nat)
    requires |f| >= 3 && used == |Used(f, |f|)| < 2
    ensures
      var x := ForcedSymbol(MaxUsed(f, |f|));
      && 0 <= x <= 2 && f[x] == 0
      && Used(f[x := 1], |f|) == Used(f, |f|) + {x}
      && |Used(f[x := 1], |f|)| == used + 1
      && MaxUsed(f[x := 1], |f|) == if MaxUsed(f, |f|) < 2 then x else MaxUsed(f, |f|)
  {
    var m := MaxUsed(f, |f|);
    var x := ForcedSymbol(m);
    if m >= 2 {
      assert m in Used(f, |f|);
      if f[0] != 0 {
        assert 0 in Used(f, |f|);
        TwoMembers(Used(f, |f|), 0, m);
      }
    }
    assert Used(f[x := 1], |f|) == Used(f, |f|) + {x};
    MaxUsedIs(f[x := 1], |f|, if m < 2 then x else m);
  }

  lemma TwoMembers(s: set<int>, a: int, b: int)
    requires a in s && b in s && a != b
    ensures |s| >= 2
  {
    assert {a, b} <= s;
    SubsetSize({a, b}, s);
  }

  lemma SubsetSize(a: set<int>, b: set<int>)
    requires a <= b
    ensures |a| <= |b|
  {
    assert |b| == |a| + |b - a| by {
      assert b == a + (b - a);
    }
  }

  lemma {:induction false} MaxUsedIs(f: seq<int>, n: nat, m: int)
    requires n <= |f| && 0 <= m < n && f[m] != 0
    requires forall c :: m < c < n ==> f[c] == 0
    ensures MaxUsed(f, n) == m
  {
  }

  /** The second loop: makes sure that at least two codes exist. The cost of the block
      does not include the codes it adds. */
  method ForceTwo(heap: array<int>, heapLen0: nat, fc: array<int>, depth: array<int>, elems: nat, maxCode0: int,
                  sdl: Option<seq<int>>)
    returns (heapLen: nat, maxCode: int, optDelta: int, staticDelta: int)
    requires heap != fc && heap != depth && fc != depth
    requires 3 <= elems <= fc.Length && elems <= depth.Length && elems + 2 < heap.Length
    requires sdl.Some? ==> |sdl.value| >= elems
    requires Holds(heap[..], heapLen0, Used(fc[..elems], elems)) && heapLen0 <= elems
    requires maxCode0 == MaxUsed(fc[..elems], elems) && AtBottom(fc[..elems], depth[..], elems)
    modifies heap, fc, depth
    ensures AtBottom(fc[..elems], depth[..], elems)
    ensures 2 <= heapLen <= elems && maxCode == MaxUsed(fc[..elems], elems) >= 0
    ensures Holds(heap[..], heapLen, Used(fc[..elems], elems))
    ensures fc[..elems] == Forced(old(fc[..elems]), heapLen0)
    ensures fc[elems..] == old(fc[elems..])
    ensures optDelta == if heapLen0 < 2 then heapLen0 - 2 else 0
    ensures sdl.Some? ==> staticDelta == -ForcedSum(old(fc[..elems]), heapLen0, sdl.value)
    ensures heapLen == if heapLen0 < 2 then 2 else heapLen0
  {
    heapLen, maxCode, optDelta, staticDelta := heapLen0, maxCode0, 0, 0;
    ghost var f0 := fc[..elems];
    while heapLen < 2
      invariant heapLen0 <= heapLen <= elems && (heapLen <= 2 || heapLen == heapLen0)
      invariant maxCode == MaxUsed(fc[..elems], elems)
      invariant Holds(heap[..], heapLen, Used(fc[..elems], elems))
      invariant Forced(fc[..elems], heapLen) == Forced(f0, heapLen0)
      invariant fc[elems..] == old(fc[elems..]) && AtBottom(fc[..elems], depth[..], elems)
      invariant optDelta == heapLen0 - heapLen
      invariant sdl.Some? ==>
        ForcedSum(fc[..elems], heapLen, sdl.value) - staticDelta == ForcedSum(f0, heapLen0, sdl.value)
    {
      maxCode, heapLen, staticDelta := ForceOne(heap, heapLen, fc, depth, elems, maxCode, sdl, staticDelta);
      optDelta := optDelta - 1;
    }
  }

  method ForceOne(heap: array<int>, heapLen: nat, fc: array<int>, depth: array<int>, elems: nat, maxCode: int,
                  sdl: Option<seq<int>>, staticDelta: int)
    returns (maxCode': int, heapLen': nat, staticDelta': int)
    requires heap != fc && heap != depth && fc != depth
    requires 3 <= elems <= fc.Length && elems <= depth.Length && elems + 2 < heap.Length
    requires sdl.Some? ==> |sdl.value| >= elems
    requires heapLen < 2 && Holds(heap[..], heapLen, Used(fc[..elems], elems))
    requires maxCode == MaxUsed(fc[..elems], elems) && AtBottom(fc[..elems], depth[..], elems)
    modifies heap, fc, depth
    ensures AtBottom(fc[..elems], depth[..], elems)
    ensures heapLen' == heapLen + 1 && maxCode' == MaxUsed(fc[..elems], elems)
    ensures Holds(heap[..], heapLen', Used(fc[..elems], elems))
    ensures fc[..elems] == old(fc[..elems])[ForcedSymbol(maxCode) := 1]
    ensures fc[elems..] == old(fc[elems..])
    ensures 0 <= ForcedSymbol(maxCode) < elems
    ensures sdl.Some? ==> staticDelta' == staticDelta - sdl.value[ForcedSymbol(maxCode)]
  {
    ghost var f := fc[..elems];
    HoldsSize(heap[..], heapLen, Used(f, elems));
    ForcedIsNew(f, heapLen);
    maxCode', staticDelta' := maxCode, staticDelta;
    var xnew := 0;
    if maxCode < 2 {
      maxCode' := maxCode + 1;
      xnew := maxCode';
    }
    heapLen' := Push(heap, heapLen, xnew, Used(f, elems));
    fc[xnew] := 1;
    assert fc[..elems] == f[xnew := 1];
    depth[xnew] := 0;
    if sdl.Some? {
      staticDelta' := staticDelta' - sdl.value[xnew];
    }
  }

  // ---- the merge loop ---------------------------------------------------------------

  /** Sifts down every inner position, last first. */
  method Heapify(heap: array<int>, heapLen: nat, fc: array<int>, depth: array<int>, ghost s: set<int>)
    requires heap != fc && heap != depth && fc.Length <= depth.Length
    requires Nodes(heap[..], heapLen, fc[..]) && Holds(heap[..], heapLen, s)
    modifies heap
    ensures HeapOf(heap[..], heapLen, s, fc[..], depth[..])
  {
    var n := heapLen / 2;
    while n >= 1
      invariant 0 <= n <= heapLen / 2
      invariant Nodes(heap[..], heapLen, fc[..]) && Holds(heap[..], heapLen, s)
      invariant HeapFrom(heap[..], n + 1, heapLen, fc[..], depth[..])
    {
      PqDownHeap(heap, heapLen, fc, depth, n);
      n := n - 1;
    }
  }

  /** Positions from `max` on list every node of the tree, root first and each parent
      before its children. */
  predicate Ordered(f: seq<int>, h: seq<int>, max: nat, par: seq<int>, place: seq<int>)
  {
    && |place| == |par| > 0 && max < |h| == HEAP_SIZE
    && (forall c {:trigger place[c]} :: 0 <= c < |par| && Alive(f, c) ==> max <= place[c] < |h| && h[place[c]] == c)
    && (forall i {:trigger h[i]} :: max <= i < |h| ==> 0 <= h[i] < |par| && Alive(f, h[i]) && place[h[i]] == i)
    && (forall c {:trigger par[c]} :: 0 <= c < |par| && 0 <= par[c] < |par| ==> place[par[c]] < place[c])
    && place[|par| - 1] == max
  }

  lemma NoRootsElsewhere(f: seq<int>, par: seq<int>, h: seq<int>)
    requires |par| > 0 && Holds(h, 1, Roots(f, par)) && par[|par| - 1] == -1 && Alive(f, |par| - 1)
    ensures h[1] == |par| - 1
    ensures forall c {:trigger par[c]} :: 0 <= c < |par| - 1 && Alive(f, c) ==> par[c] != -1
  {
    HoldsIn(h, 1, Roots(f, par), 1);
    forall c | 0 <= c < |par| && Alive(f, c) && par[c] == -1
      ensures c == h[1]
    {
      assert c in Roots(f, par);
      var i := HoldsAt(h, 1, Roots(f, par), c);
    }
  }

  /** When one node is left on the heap the forest is a tree, and adding that node to the
      list completes it. */
  lemma MergesComplete(f: seq<int>, h: seq<int>, max: nat, w: seq<int>, dl: seq<int>, d: seq<int>,
                       par: seq<int>, kids: seq<(int, int)>, place: seq<int>)
    requires Merging(f, h, 1, max, w, dl, d, par, kids, place) && |kids| > 0
    ensures Tree(f, par, kids) && max > 1 && h[1] == |par| - 1
    ensures Ordered(f, h[max - 1 := h[1]], max - 1, par, place[|par| - 1 := max - 1])
  {
    var root := |par| - 1;
    NoRootsElsewhere(f, par, h);
    var g, q := h[max - 1 := h[1]], place[root := max - 1];
    forall c | 0 <= c < |par| && 0 <= par[c] < |par|
      ensures q[par[c]] < q[c]
    {
      assert c != root && place[c] >= max;
    }
    forall i | max - 1 <= i < |g|
      ensures 0 <= g[i] < |par| && Alive(f, g[i]) && q[g[i]] == i
    {
      if i >= max {
        assert g[i] == h[i] && par[h[i]] != -1;
      }
    }
  }

  /** The result of the merge loop: a greedy tree over the frequencies `f`, in order. */
  predicate Built(f: seq<int>, h: seq<int>, max: nat, w: seq<int>, dl: seq<int>,
                  par: seq<int>, kids: seq<(int, int)>, place: seq<int>)
  {
    && Tree(f, par, kids) && Weighted(f, w, par, kids) && Greedy(f, w, par, kids)
    && Ordered(f, h, max, par, place) && LinksStored(f, dl, par)
    && 2 * |f| <= |w| == |dl| && |par| < 2 * |f|
  }

  /** The second do-while loop of `zip_build_tree`. */
  method MergeAll(heap: array<int>, heapLen0: nat, fc: array<int>, dl: array<int>, depth: array<int>,
                  elems: nat, ghost f: seq<int>)
    returns (heapMax: nat, ghost par: seq<int>, ghost kids: seq<(int, int)>, ghost place: seq<int>)
    requires heap != fc && heap != dl && heap != depth && fc != dl && fc != depth && dl != depth
    requires |f| == elems && heapLen0 >= 2
    requires Merging(f, heap[..], heapLen0, HEAP_SIZE, fc[..], dl[..], depth[..],
                     seq(elems, i => -1), [], seq(elems, i => -1))
    modifies heap, fc, dl, depth
    ensures Built(f, heap[..], heapMax, fc[..], dl[..], par, kids, place)
    ensures |kids| == heapLen0 - 1 && Tracked(f, fc[..], depth[..], kids)
  {
    var heapLen, node := heapLen0, elems;
    heapMax := HEAP_SIZE;
    par, kids, place := seq(elems, i => -1), [], seq(elems, i => -1);
    while heapLen >= 2
      invariant 1 <= heapLen <= heapLen0 && heapMax == HEAP_SIZE - 2 * |kids|
      invariant node == |par| && |kids| + heapLen == heapLen0
      invariant Merging(f, heap[..], heapLen, heapMax, fc[..], dl[..], depth[..], par, kids, place)
    {
      par, kids, place := MergeLeast(heap, heapLen, heapMax, fc, dl, depth, node, f, par, kids, place);
      heapLen := heapLen - 1;
      heapMax := heapMax - 2;
      node := node + 1;
    }
    ghost var h := heap[..];
    MergesComplete(f, h, heapMax, fc[..], dl[..], depth[..], par, kids, place);
    place := place[|par| - 1 := heapMax - 1];
    heapMax := heapMax - 1;
    heap[heapMax] := heap[1];
    assert heap[..] == h[heapMax := h[1]];
  }
}
