/** What `zip_depth` is, which breaks ties between nodes of equal weight: not the height of the
    subtree in general. */
module HuffmanTies {
  import opened Options
  import opened HuffmanForest
  import opened HuffmanBuild
  import opened HuffmanStart
  import opened TreeBuilder

  predicate KidsBelow(n: nat, kids: seq<(int, int)>)
  {
    forall k :: 0 <= k < |kids| ==> 0 <= kids[k].0 < n + k && 0 <= kids[k].1 < n + k
  }

  /** The height of the subtree of a node; the first `n` are leaves. */
  function Height(n: nat, kids: seq<(int, int)>, c: nat): nat
    requires KidsBelow(n, kids) && c < n + |kids|
  {
    if c < n then 0
    else
      var a, b := Height(n, kids, kids[c - n].0), Height(n, kids, kids[c - n].1);
      1 + if a < b then b else a
  }

  lemma TrackedBelow(f: seq<int>, w: seq<int>, d: seq<int>, kids: seq<(int, int)>)
    requires Tracked(f, w, d, kids)
    ensures KidsBelow(|f|, kids) && |f| + |kids| <= |d|
  {
    forall k | 0 <= k < |kids|
      ensures 0 <= kids[k].0 < |f| + k && 0 <= kids[k].1 < |f| + k
    {
      assert TrackedAt(|f| + k, w, d, kids[k]);
    }
  }

  predicate FirstLower(n: nat, kids: seq<(int, int)>, k: nat)
    requires KidsBelow(n, kids) && k < |kids|
  {
    Height(n, kids, kids[k].0) <= Height(n, kids, kids[k].1)
  }

  predicate Right(n: nat, d: seq<int>, kids: seq<(int, int)>, c: nat)
    requires KidsBelow(n, kids) && c < n + |kids| <= |d|
  {
    d[c] == Height(n, kids, c)
  }

  /** In no tree is `zip_depth` more than the height. */
  lemma {:induction false} NeverAbove(f: seq<int>, par: seq<int>, w: seq<int>, d: seq<int>, kids: seq<(int, int)>,
                                      c: nat)
    requires Tracked(f, w, d, kids) && Forest(f, par, kids) && KidsBelow(|f|, kids)
    requires c < |f| + |kids| && Alive(f, c)
    ensures d[c] <= Height(|f|, kids, c)
    decreases c
  {
    if c >= |f| {
      var k := c - |f|;
      assert TrackedAt(|f| + k, w, d, kids[k]) && HasKids(f, par, kids[k], |f| + k);
      NeverAbove(f, par, w, d, kids, kids[k].0);
      NeverAbove(f, par, w, d, kids, kids[k].1);
    }
  }

  lemma {:induction false} RightBelow(f: seq<int>, par: seq<int>, w: seq<int>, d: seq<int>, kids: seq<(int, int)>,
                                      c: nat)
    requires Tracked(f, w, d, kids) && Forest(f, par, kids) && KidsBelow(|f|, kids)
    requires forall k :: 0 <= k < |kids| ==> FirstLower(|f|, kids, k)
    requires c < |f| + |kids| && Alive(f, c)
    ensures Right(|f|, d, kids, c)
    decreases c
  {
    if c >= |f| {
      var k := c - |f|;
      assert TrackedAt(|f| + k, w, d, kids[k]) && HasKids(f, par, kids[k], |f| + k) && FirstLower(|f|, kids, k);
      RightBelow(f, par, w, d, kids, kids[k].0);
      RightBelow(f, par, w, d, kids, kids[k].1);
    }
  }

  /** `zip_depth` is the height of every node exactly if no merge takes a higher subtree first. */
  lemma DepthIsHeight(f: seq<int>, par: seq<int>, w: seq<int>, d: seq<int>, kids: seq<(int, int)>)
    requires Tracked(f, w, d, kids) && Forest(f, par, kids)
    ensures KidsBelow(|f|, kids) && |f| + |kids| <= |d|
    ensures (forall c: nat :: c < |f| + |kids| && Alive(f, c) ==> Right(|f|, d, kids, c)) <==>
              (forall k :: 0 <= k < |kids| ==> FirstLower(|f|, kids, k))
  {
    TrackedBelow(f, w, d, kids);
    if forall k :: 0 <= k < |kids| ==> FirstLower(|f|, kids, k) {
      forall c: nat | c < |f| + |kids| && Alive(f, c)
        ensures Right(|f|, d, kids, c)
      {
        RightBelow(f, par, w, d, kids, c);
      }
    }
    if forall c: nat :: c < |f| + |kids| && Alive(f, c) ==> Right(|f|, d, kids, c) {
      forall k | 0 <= k < |kids|
        ensures FirstLower(|f|, kids, k)
      {
        assert TrackedAt(|f| + k, w, d, kids[k]) && HasKids(f, par, kids[k], |f| + k);
        assert Right(|f|, d, kids, |f| + k) && Right(|f|, d, kids, kids[k].0) && Right(|f|, d, kids, kids[k].1);
      }
    }
  }

  // ---- three symbols with frequencies 1, 1 and 3 ------------------------------------

  predicate Lopsided(f: seq<int>)
  {
    |f| >= 3 && f[0] == f[1] == 1 && f[2] == 3 && forall c :: 3 <= c < |f| ==> f[c] == 0
  }

  lemma KidsOf(f: seq<int>, par: seq<int>, kids: seq<(int, int)>, k: nat)
    requires Forest(f, par, kids) && k < |kids|
    ensures HasKids(f, par, kids[k], |f| + k)
  {
  }

  /** The first merge takes the two symbols of frequency 1. */
  lemma FirstMerge(f: seq<int>, par: seq<int>, w: seq<int>, kids: seq<(int, int)>)
    requires Lopsided(f) && Tree(f, par, kids) && Weighted(f, w, par, kids) && Greedy(f, w, par, kids)
    ensures (kids[0] == (0, 1) || kids[0] == (1, 0)) && w[|f|] == 2 && par[0] == par[1] == |f|
  {
    KidsOf(f, par, kids, 0);
    assert w[0] == f[0] && w[1] == f[1] && w[2] == f[2];
    assert Alive(f, 0) && Alive(f, 1) && InFrontier(par[0], |f| + 0) && InFrontier(par[1], |f| + 0);
  }

  /** The second merge takes the node of these two first, and then the third symbol. */
  lemma SecondMerge(f: seq<int>, par: seq<int>, w: seq<int>, d: seq<int>, kids: seq<(int, int)>)
    requires Lopsided(f) && Tree(f, par, kids) && Weighted(f, w, par, kids) && Greedy(f, w, par, kids)
    requires Tracked(f, w, d, kids)
    ensures |kids| == 2 && kids[1] == (|f|, 2)
  {
    FirstMerge(f, par, w, kids);
    KidsOf(f, par, kids, 0);
    assert Alive(f, 2) && par[2] != -1 && par[2] != |f|;
    assert |kids| >= 2;
    KidsOf(f, par, kids, 1);
    assert TrackedAt(|f| + 1, w, d, kids[1]);
    assert w[2] == f[2] == 3;
    if |kids| > 2 {
      KidsOf(f, par, kids, 2);
      assert false;
    }
  }

  /** However ties are broken: `zip_depth` of the root is 1, and the tree has height 2. */
  lemma TooLow(f: seq<int>, par: seq<int>, w: seq<int>, d: seq<int>, kids: seq<(int, int)>)
    requires Lopsided(f) && Tree(f, par, kids) && Weighted(f, w, par, kids) && Greedy(f, w, par, kids)
    requires Tracked(f, w, d, kids)
    ensures KidsBelow(|f|, kids) && |f| + |kids| <= |d|
    ensures d[|f| + |kids| - 1] == 1 && Height(|f|, kids, |f| + |kids| - 1) == 2
  {
    TrackedBelow(f, w, d, kids);
    FirstMerge(f, par, w, kids);
    SecondMerge(f, par, w, d, kids);
    assert TrackedAt(|f| + 0, w, d, kids[0]) && TrackedAt(|f| + 1, w, d, kids[1]);
    assert d[0] == d[1] == d[2] == 0;
    assert Height(|f|, kids, |f|) == 1;
  }

  lemma ThreeUsed(f: seq<int>, used: nat)
    requires Lopsided(f) && IsUsedCount(f, used)
    ensures Forced(f, used) == f
  {
    assert Used(f, |f|) == {0, 1, 2};
  }

  /** The first part of `zip_build_tree` on a table of 19 symbols like this. */
  method LowRoot() returns (stored: int, ghost height: nat)
    ensures stored == 1 && height == 2
  {
    hide Tree, Weighted, Greedy, Tracked, Ordered, LinksStored, Height, KidsBelow;
    var fc := new int[39](i => if i < 2 then 1 else if i == 2 then 3 else 0);
    var dl, heap, depth := new int[39], new int[HEAP_SIZE], new int[HEAP_SIZE];
    ghost var f := fc[..19];
    assert f[0] == f[1] == 1 && f[2] == 3;
    var maxCode, optDelta, staticDelta, heapMax;
    ghost var used, par, kids, place;
    maxCode, optDelta, staticDelta, heapMax, used, par, kids, place := GrowTree(fc, dl, heap, depth, 19, None);
    ThreeUsed(f, used);
    TooLow(f, par, fc[..], depth[..], kids);
    SecondMerge(f, par, fc[..], depth[..], kids);
    stored, height := depth[20], Height(19, kids, 20);
  }
}
