/** Construction of the Huffman tree (`zip_build_tree`, up to the bit lengths). */
module HuffmanBuild {
  import opened HuffmanForest
  import opened HuffmanHeap

  const HEAP_SIZE: nat := 573

  // ---- the heap as a set of nodes ---------------------------------------------------

  /** Heap positions `1..len` hold exactly the nodes of `s`. */
  predicate Holds(h: seq<int>, len: nat, s: set<int>)
  {
    len < |h| && multiset(h[1..len + 1]) == multiset(s)
  }

  lemma HoldsIn(h: seq<int>, len: nat, s: set<int>, c: nat)
    requires Holds(h, len, s) && 1 <= c <= len
    ensures h[c] in s
  {
    assert h[1..len + 1][c - 1] in multiset(h[1..len + 1]);
  }

  lemma HoldsAt(h: seq<int>, len: nat, s: set<int>, r: int) returns (c: nat)
    requires Holds(h, len, s) && r in s
    ensures 1 <= c <= len && h[c] == r
  {
    assert r in multiset(s);
    assert r in h[1..len + 1];
    var i :| 0 <= i < len && h[1..len + 1][i] == r;
    c := i + 1;
  }

  /** The node at the first position of a heap has least weight. */
  lemma FirstIsLeast(h: seq<int>, len: nat, s: set<int>, w: seq<int>, d: seq<int>)
    requires Holds(h, len, s) && len >= 1 && Nodes(h, len, w) && |d| >= |w| && HeapFrom(h, 1, len, w, d)
    ensures h[1] in s && forall r :: r in s ==> 0 <= r < |w| && w[h[1]] <= w[r]
  {
    HoldsIn(h, len, s, 1);
    forall r | r in s
      ensures 0 <= r < |w| && w[h[1]] <= w[r]
    {
      var c := HoldsAt(h, len, s, r);
      RootIsLeast(h, len, w, d, c);
    }
  }

  lemma RemoveFirst(s: seq<int>)
    requires |s| >= 2
    ensures multiset(s[0 := s[|s| - 1]][..|s| - 1]) == multiset(s) - multiset{s[0]}
  {
    var t := s[1..|s| - 1];
    assert s == [s[0]] + t + [s[|s| - 1]];
    assert s[0 := s[|s| - 1]][..|s| - 1] == [s[|s| - 1]] + t;
  }

  lemma SetMinus(s: set<int>, x: int)
    requires x in s
    ensures multiset(s - {x}) == multiset(s) - multiset{x}
  {
  }

  lemma SetPlus(s: set<int>, x: int)
    requires x !in s
    ensures multiset(s + {x}) == multiset(s) + multiset{x}
  {
  }

  lemma HoldsWithoutFirst(h: seq<int>, len: nat, s: set<int>)
    requires Holds(h, len, s) && len >= 2
    ensures Holds(h[1 := h[len]], len - 1, s - {h[1]})
  {
    HoldsIn(h, len, s, 1);
    RemoveFirst(h[1..len + 1]);
    SetMinus(s, h[1]);
    assert h[1 := h[len]][1..len] == h[1..len + 1][0 := h[len]][..len - 1];
  }

  lemma HoldsWithFirst(h: seq<int>, len: nat, s: set<int>, x: int)
    requires Holds(h, len, s) && len >= 1 && x !in s
    ensures Holds(h[1 := x], len, s - {h[1]} + {x})
  {
    HoldsIn(h, len, s, 1);
    SetMinus(s, h[1]);
    SetPlus(s - {h[1]}, x);
    var t := h[2..len + 1];
    assert h[1..len + 1] == [h[1]] + t;
    assert h[1 := x][1..len + 1] == [x] + t;
  }

  /** A heap of the nodes in `s`. */
  predicate HeapOf(h: seq<int>, len: nat, s: set<int>, w: seq<int>, d: seq<int>)
  {
    && |d| >= |w| && Nodes(h, len, w) && Holds(h, len, s) && HeapFrom(h, 1, len, w, d)
  }

  /** The first half of a merge: removes a least node. */
  method TakeLeast(heap: array<int>, heapLen: nat, fc: array<int>, depth: array<int>, ghost s: set<int>)
    returns (n: int)
    requires heap != fc && heap != depth && fc.Length <= depth.Length
    requires heapLen >= 2 && HeapOf(heap[..], heapLen, s, fc[..], depth[..])
    modifies heap
    ensures n == old(heap[1]) && n in s
    ensures forall r :: r in s ==> 0 <= r < fc.Length && fc[n] <= fc[r]
    ensures HeapOf(heap[..], heapLen - 1, s - {n}, fc[..], depth[..])
    ensures forall c :: heapLen <= c < heap.Length ==> heap[c] == old(heap[c])
  {
    ghost var h := heap[..];
    FirstIsLeast(h, heapLen, s, fc[..], depth[..]);
    HoldsWithoutFirst(h, heapLen, s);
    n := heap[1];
    heap[1] := heap[heapLen];
    assert heap[..] == h[1 := h[heapLen]];
    PqDownHeap(heap, heapLen - 1, fc, depth, 1);
  }

  /** The last step of a merge: the new node replaces the first one. */
  method PutLeast(heap: array<int>, heapLen: nat, fc: array<int>, depth: array<int>, node: int, ghost s: set<int>)
    requires heap != fc && heap != depth && fc.Length <= depth.Length
    requires heapLen >= 1 && HeapOf(heap[..], heapLen, s, fc[..], depth[..])
    requires 0 <= node < fc.Length && node !in s
    modifies heap
    ensures HeapOf(heap[..], heapLen, s - {old(heap[1])} + {node}, fc[..], depth[..])
    ensures forall c :: heapLen < c < heap.Length ==> heap[c] == old(heap[c])
  {
    ghost var h := heap[..];
    HoldsWithFirst(h, heapLen, s, node);
    heap[1] := node;
    assert heap[..] == h[1 := node];
    PqDownHeap(heap, heapLen, fc, depth, 1);
  }

  // ---- the nodes already merged -----------------------------------------------------

  /** Positions from `max` on list exactly the nodes that have a parent, each at its
      `place`, every parent before its children. */
  predicate Placed(h: seq<int>, max: nat, par: seq<int>, place: seq<int>)
  {
    && |place| == |par| && max <= |h|
    && (forall c {:trigger place[c]} :: 0 <= c < |par| ==>
          if par[c] == -1 then place[c] == -1 else max <= place[c] < |h| && h[place[c]] == c)
    && (forall i {:trigger h[i]} :: max <= i < |h| ==> 0 <= h[i] < |par| && place[h[i]] == i)
    && (forall c {:trigger par[c]} :: 0 <= c < |par| && 0 <= par[c] < |par| && par[par[c]] != -1 ==>
          place[par[c]] < place[c])
  }

  lemma PlaceMerged(h: seq<int>, max: nat, par: seq<int>, place: seq<int>, n: int, m: int)
    requires Placed(h, max, par, place) && max >= 2
    requires 0 <= n < |par| && 0 <= m < |par| && n != m && par[n] == -1 && par[m] == -1
    requires forall c {:trigger par[c]} :: 0 <= c < |par| ==> par[c] == -1 || 0 <= par[c] < |par|
    ensures Placed(h[max - 1 := n][max - 2 := m], max - 2, Merged(par, n, m),
                   place[n := max - 1][m := max - 2] + [-1])
  {
    var g, p, q := h[max - 1 := n][max - 2 := m], Merged(par, n, m), place[n := max - 1][m := max - 2] + [-1];
    forall c | 0 <= c < |p| && 0 <= p[c] < |p| && p[p[c]] != -1
      ensures q[p[c]] < q[c]
    {
      assert c != n && c != m && p[c] == par[c];
    }
  }

  /** `zip_depth`: 0 for the used symbols, and for a merged node what its children give; the first
      child of a node never weighs more than the second. */
  predicate Tracked(f: seq<int>, w: seq<int>, d: seq<int>, kids: seq<(int, int)>)
  {
    && |f| + |kids| <= |w| <= |d|
    && (forall c {:trigger d[c]} :: 0 <= c < |f| && f[c] != 0 ==> d[c] == 0)
    && (forall k :: 0 <= k < |kids| ==> TrackedAt(|f| + k, w, d, kids[k]))
  }

  predicate TrackedAt(node: nat, w: seq<int>, d: seq<int>, kid: (int, int))
    requires node < |w| <= |d|
  {
    && 0 <= kid.0 < node && 0 <= kid.1 < node && w[kid.0] <= w[kid.1]
    && d[node] == DepthAbove(d[kid.0], d[kid.1])
  }

  lemma MergeTracked(f: seq<int>, w: seq<int>, d: seq<int>, kids: seq<(int, int)>, n: int, m: int)
    requires Tracked(f, w, d, kids) && |f| + |kids| < |w|
    requires 0 <= n < |f| + |kids| && 0 <= m < |f| + |kids| && w[n] <= w[m]
    ensures var node := |f| + |kids|;
      Tracked(f, w[node := w[n] + w[m]], d[node := DepthAbove(d[n], d[m])], kids + [(n, m)])
  {
    hide DepthAbove;
    var node := |f| + |kids|;
    var w', d', kids' := w[node := w[n] + w[m]], d[node := DepthAbove(d[n], d[m])], kids + [(n, m)];
    forall k | 0 <= k < |kids'|
      ensures TrackedAt(|f| + k, w', d', kids'[k])
    {
      if k < |kids| {
        assert TrackedAt(|f| + k, w, d, kids[k]);
      }
    }
  }

  /** What the merge loop keeps. `f` are the frequencies, `w` the weights, `dl` the parent
      links as the encoder stores them. */
  predicate Merging(f: seq<int>, h: seq<int>, len: nat, max: nat, w: seq<int>, dl: seq<int>, d: seq<int>,
                    par: seq<int>, kids: seq<(int, int)>, place: seq<int>)
  {
    && |h| == HEAP_SIZE && 2 * |f| <= |w| == |dl|
    && len >= 1 && len + |kids| <= |f| <= 286 && max == HEAP_SIZE - 2 * |kids|
    && Forest(f, par, kids) && Weighted(f, w, par, kids) && Greedy(f, w, par, kids)
    && HeapOf(h, len, Roots(f, par), w, d)
    && Placed(h, max, par, place)
    && LinksStored(f, dl, par) && Tracked(f, w, d, kids)
  }

  predicate LinksStored(f: seq<int>, dl: seq<int>, par: seq<int>)
  {
    && |par| <= |dl| && |f| <= |par|
    && (forall c {:trigger dl[c]} :: 0 <= c < |par| && par[c] != -1 ==> dl[c] == par[c])
    && (forall c {:trigger dl[c]} :: 0 <= c < |f| && !Alive(f, c) ==> dl[c] == 0)
  }

  lemma HeapKept(h: seq<int>, len: nat, s: set<int>, w: seq<int>, d: seq<int>, node: nat, v: int, e: int)
    requires HeapOf(h, len, s, w, d) && node < |w| && node !in s
    ensures HeapOf(h, len, s, w[node := v], d[node := e])
  {
    forall c | 1 <= c <= len
      ensures h[c] != node
    {
      HoldsIn(h, len, s, c);
    }
  }

  /** The order on the heap's own positions is not affected by positions above it. */
  lemma HeapUpTo(h: seq<int>, g: seq<int>, len: nat, s: set<int>, w: seq<int>, d: seq<int>)
    requires HeapOf(h, len, s, w, d) && len < |g|
    requires forall c :: 1 <= c <= len ==> g[c] == h[c]
    ensures HeapOf(g, len, s, w, d)
  {
    assert g[1..len + 1] == h[1..len + 1];
  }

  lemma PlacedFrom(h: seq<int>, g: seq<int>, max: nat, par: seq<int>, place: seq<int>)
    requires Placed(h, max, par, place) && |g| == |h|
    requires forall c :: max <= c < |h| ==> g[c] == h[c]
    ensures Placed(g, max, par, place)
  {
  }

  function DepthAbove(a: int, b: int): int { if a > b + 1 then a else b + 1 }

  /** What a merge has established when the new node is ready to enter the heap. */
  predicate MergeReady(f: seq<int>, h: seq<int>, len: nat, max: nat, w: seq<int>, dl: seq<int>, d: seq<int>,
                       par: seq<int>, kids: seq<(int, int)>, place: seq<int>, rest: set<int>)
  {
    && |h| == HEAP_SIZE && 2 * |f| <= |w| == |dl| <= |d|
    && len >= 1 && len + |kids| <= |f| <= 286 && max == HEAP_SIZE - 2 * |kids| && |kids| > 0
    && Forest(f, par, kids) && Weighted(f, w, par, kids) && Greedy(f, w, par, kids)
    && HeapOf(h, len, rest, w, d) && |par| - 1 !in rest
    && Roots(f, par) == rest - {h[1]} + {|par| - 1}
    && Placed(h, max, par, place)
    && LinksStored(f, dl, par) && Tracked(f, w, d, kids)
  }

  /** `h1` is the heap after its least node `n` was taken; `m` is then the least. */
  lemma MergePrepared(f: seq<int>, h: seq<int>, len: nat, max: nat, w: seq<int>, dl: seq<int>, d: seq<int>,
                      par: seq<int>, kids: seq<(int, int)>, place: seq<int>, h1: seq<int>, n: int, m: int)
    requires Merging(f, h, len, max, w, dl, d, par, kids, place) && len >= 2
    requires n in Roots(f, par) && forall r :: r in Roots(f, par) ==> 0 <= r < |w| && w[n] <= w[r]
    requires HeapOf(h1, len - 1, Roots(f, par) - {n}, w, d) && m == h1[1]
    requires |h1| == |h| && forall c :: len <= c < |h| ==> h1[c] == h[c]
    ensures n != m && 0 <= n < |par| && 0 <= m < |par| < |w|
    ensures MergeReady(f, h1[max - 1 := n][max - 2 := m], len - 1, max - 2, w[|par| := w[n] + w[m]],
                       dl[n := |par|][m := |par|], d[|par| := DepthAbove(d[n], d[m])],
                       Merged(par, n, m), kids + [(n, m)],
                       place[n := max - 1][m := max - 2] + [-1], Roots(f, par) - {n})
  {
    hide Forest, Weighted, Greedy, Placed, LinksStored, HeapFrom, Holds, Nodes, Roots, Tracked;
    var roots := Roots(f, par);
    MergingSizes(f, h, len, max, w, dl, d, par, kids, place);
    FirstIsLeast(h1, len - 1, roots - {n}, w, d);
    TwoRoots(f, par, n, m);
    MergePlaced(f, h, max, par, kids, place, h1, len, n, m);
    MergeHeap(h1, len - 1, max, roots - {n}, w, d, |par|, n, m);
    MergeForest(f, par, kids, n, m);
    MergeWeighted(f, w, par, kids, n, m);
    MergeGreedy(f, w, par, kids, n, m);
    LinksMerged(f, dl, par, n, m);
    NodeCount(f, par, kids);
    MergeTracked(f, w, d, kids, n, m);
    assert roots - {n, m} + {|par|} == roots - {n} - {m} + {|par|};
  }

  lemma NodeCount(f: seq<int>, par: seq<int>, kids: seq<(int, int)>)
    requires Forest(f, par, kids)
    ensures |par| == |f| + |kids|
  {
  }

  lemma TwoRoots(f: seq<int>, par: seq<int>, n: int, m: int)
    requires n in Roots(f, par) && m in Roots(f, par)
    ensures 0 <= n < |par| && 0 <= m < |par| && par[n] == par[m] == -1 && |par| !in Roots(f, par)
  {
  }

  lemma MergePlaced(f: seq<int>, h: seq<int>, max: nat, par: seq<int>, kids: seq<(int, int)>, place: seq<int>,
                    h1: seq<int>, len: nat, n: int, m: int)
    requires Placed(h, max, par, place) && max >= 2 && Forest(f, par, kids)
    requires |h1| == |h| && len <= max && forall c :: len <= c < |h| ==> h1[c] == h[c]
    requires 0 <= n < |par| && 0 <= m < |par| && n != m && par[n] == -1 && par[m] == -1
    ensures Placed(h1[max - 1 := n][max - 2 := m], max - 2, Merged(par, n, m),
                   place[n := max - 1][m := max - 2] + [-1])
  {
    PlacedFrom(h, h1, max, par, place);
    PlaceMerged(h1, max, par, place, n, m);
  }

  lemma MergeHeap(h1: seq<int>, len: nat, max: nat, s: set<int>, w: seq<int>, d: seq<int>, node: nat, n: int, m: int)
    requires HeapOf(h1, len, s, w, d) && len + 2 < max <= |h1|
    requires node < |w| && node !in s && 0 <= n < |w| && 0 <= m < |w|
    ensures HeapOf(h1[max - 1 := n][max - 2 := m], len, s, w[node := w[n] + w[m]], d[node := DepthAbove(d[n], d[m])])
  {
    var g := h1[max - 1 := n][max - 2 := m];
    HeapUpTo(h1, g, len, s, w, d);
    HeapKept(g, len, s, w, d, node, w[n] + w[m], DepthAbove(d[n], d[m]));
  }

  lemma LinksMerged(f: seq<int>, dl: seq<int>, par: seq<int>, n: int, m: int)
    requires LinksStored(f, dl, par) && |par| < |dl|
    requires n in Roots(f, par) && m in Roots(f, par)
    ensures LinksStored(f, dl[n := |par|][m := |par|], Merged(par, n, m))
  {
  }

  method StackPair(heap: array<int>, heapMax: nat, n: int, m: int)
    requires 2 <= heapMax <= heap.Length
    modifies heap
    ensures heap[..] == old(heap[..])[heapMax - 1 := n][heapMax - 2 := m]
  {
    heap[heapMax - 1] := n;
    heap[heapMax - 2] := m;
  }

  method NewParent(fc: array<int>, dl: array<int>, depth: array<int>, n: int, m: int, node: int)
    requires fc != dl && fc != depth && dl != depth
    requires 0 <= n < node && 0 <= m < node < fc.Length && node < dl.Length && node < depth.Length
    modifies fc, dl, depth
    ensures fc[..] == old(fc[..])[node := old(fc[n]) + old(fc[m])]
    ensures depth[..] == old(depth[..])[node := DepthAbove(old(depth[n]), old(depth[m]))]
    ensures dl[..] == old(dl[..])[n := node][m := node]
  {
    fc[node] := fc[n] + fc[m];
    if depth[n] > depth[m] + 1 {
      depth[node] := depth[n];
    } else {
      depth[node] := depth[m] + 1;
    }
    dl[n] := node;
    dl[m] := node;
  }

  lemma MergeFinished(f: seq<int>, h: seq<int>, len: nat, max: nat, w: seq<int>, dl: seq<int>, d: seq<int>,
                      par: seq<int>, kids: seq<(int, int)>, place: seq<int>, rest: set<int>, h1: seq<int>)
    requires MergeReady(f, h, len, max, w, dl, d, par, kids, place, rest)
    requires HeapOf(h1, len, Roots(f, par), w, d)
    requires |h1| == |h| && forall c :: len < c < |h| ==> h1[c] == h[c]
    ensures Merging(f, h1, len, max, w, dl, d, par, kids, place)
  {
    PlacedFrom(h, h1, max, par, place);
  }

  lemma MergingSizes(f: seq<int>, h: seq<int>, len: nat, max: nat, w: seq<int>, dl: seq<int>, d: seq<int>,
                     par: seq<int>, kids: seq<(int, int)>, place: seq<int>)
    requires Merging(f, h, len, max, w, dl, d, par, kids, place) && len >= 2
    ensures HeapOf(h, len, Roots(f, par), w, d) && len < max <= |h| && 2 <= max && |place| == |par| < |w| == |dl| <= |d|
  {
    hide Weighted, Greedy, Roots, LinksStored;
  }

  lemma MergeReadySizes(f: seq<int>, h: seq<int>, len: nat, max: nat, w: seq<int>, dl: seq<int>, d: seq<int>,
                        par: seq<int>, kids: seq<(int, int)>, place: seq<int>, rest: set<int>)
    requires MergeReady(f, h, len, max, w, dl, d, par, kids, place, rest)
    ensures HeapOf(h, len, rest, w, d) && |par| - 1 !in rest && Roots(f, par) == rest - {h[1]} + {|par| - 1}
    ensures 1 <= len < |h| && |par| <= |w| <= |d| && |par| > 0
  {
    hide Weighted, Greedy, Roots, LinksStored;
  }

  /** Takes the two least nodes off the heap and gives them a parent, `node`. */
  method JoinLeast(heap: array<int>, heapLen: nat, heapMax: nat, fc: array<int>, dl: array<int>, depth: array<int>,
                   node: nat, ghost f: seq<int>, ghost par: seq<int>, ghost kids: seq<(int, int)>,
                   ghost place: seq<int>)
    returns (ghost par': seq<int>, ghost kids': seq<(int, int)>, ghost place': seq<int>, ghost rest: set<int>)
    requires heap != fc && heap != dl && heap != depth && fc != dl && fc != depth && dl != depth
    requires Merging(f, heap[..], heapLen, heapMax, fc[..], dl[..], depth[..], par, kids, place)
    requires heapLen >= 2 && node == |par|
    modifies heap, fc, dl, depth
    ensures MergeReady(f, heap[..], heapLen - 1, heapMax - 2, fc[..], dl[..], depth[..], par', kids', place', rest)
    ensures |kids'| == |kids| + 1 && |par'| == node + 1
  {
    hide Merging, MergeReady, Roots, DepthAbove, HeapOf;
    ghost var roots, h0, w, links, d := Roots(f, par), heap[..], fc[..], dl[..], depth[..];
    MergingSizes(f, h0, heapLen, heapMax, w, links, d, par, kids, place);
    var n := TakeLeast(heap, heapLen, fc, depth, roots);
    var m := heap[1];
    MergePrepared(f, h0, heapLen, heapMax, w, links, d, par, kids, place, heap[..], n, m);
    par', kids', place' := Merged(par, n, m), kids + [(n, m)], place[n := heapMax - 1][m := heapMax - 2] + [-1];
    rest := roots - {n};
    ghost var h2 := heap[..][heapMax - 1 := n][heapMax - 2 := m];
    ghost var w2, links2, d2 := w[node := w[n] + w[m]], links[n := node][m := node], d[node := DepthAbove(d[n], d[m])];
    assert MergeReady(f, h2, heapLen - 1, heapMax - 2, w2, links2, d2, par', kids', place', rest);
    NewParent(fc, dl, depth, n, m, node);
    StackPair(heap, heapMax, n, m);
    assert heap[..] == h2 && fc[..] == w2 && dl[..] == links2 && depth[..] == d2;
  }

  /** One round of the merge loop. */
  method MergeLeast(heap: array<int>, heapLen: nat, heapMax: nat, fc: array<int>, dl: array<int>, depth: array<int>,
                    node: nat, ghost f: seq<int>, ghost par: seq<int>, ghost kids: seq<(int, int)>,
                    ghost place: seq<int>)
    returns (ghost par': seq<int>, ghost kids': seq<(int, int)>, ghost place': seq<int>)
    requires heap != fc && heap != dl && heap != depth && fc != dl && fc != depth && dl != depth
    requires Merging(f, heap[..], heapLen, heapMax, fc[..], dl[..], depth[..], par, kids, place)
    requires heapLen >= 2 && node == |par|
    modifies heap, fc, dl, depth
    ensures Merging(f, heap[..], heapLen - 1, heapMax - 2, fc[..], dl[..], depth[..], par', kids', place')
    ensures |kids'| == |kids| + 1
  {
    hide Merging, MergeReady, Roots, HeapOf;
    ghost var rest;
    MergingSizes(f, heap[..], heapLen, heapMax, fc[..], dl[..], depth[..], par, kids, place);
    par', kids', place', rest := JoinLeast(heap, heapLen, heapMax, fc, dl, depth, node, f, par, kids, place);
    ghost var h := heap[..];
    MergeReadySizes(f, h, heapLen - 1, heapMax - 2, fc[..], dl[..], depth[..], par', kids', place', rest);
    PutLeast(heap, heapLen - 1, fc, depth, node, rest);
    MergeFinished(f, h, heapLen - 1, heapMax - 2, fc[..], dl[..], depth[..], par', kids', place', rest, heap[..]);
  }
}
