/** How heavy a tree must be to be deep: depths grow at most as Fibonacci numbers allow. */
module HuffmanDepth {
  import opened HuffmanForest
  import opened HuffmanLengths
  import opened HuffmanOptimal

  function Fib(n: nat): nat { if n < 2 then n else Fib(n - 1) + Fib(n - 2) }

  /** The sum of the first `n` frequencies. */
  function TotalOf(f: seq<int>, n: nat): int
    requires n <= |f|
  {
    if n == 0 then 0 else TotalOf(f, n - 1) + f[n - 1]
  }

  lemma {:induction false} AliveIsHeavy(f: seq<int>, w: seq<int>, par: seq<int>, kids: seq<(int, int)>, c: nat)
    requires Forest(f, par, kids) && Weighted(f, w, par, kids) && c < |par| && Alive(f, c)
    ensures w[c] >= 1
  {
    if c >= |f| {
      assert HasKids(f, par, kids[c - |f|], c);
      AliveIsHeavy(f, w, par, kids, kids[c - |f|].0);
    } else {
      assert w[c] == f[c];
    }
  }

  /** Merged nodes are created in the order of their weights. */
  lemma {:induction false} LaterIsHeavier(f: seq<int>, w: seq<int>, par: seq<int>, kids: seq<(int, int)>, j: nat,
                                          k: nat)
    requires Forest(f, par, kids) && Weighted(f, w, par, kids) && Greedy(f, w, par, kids) && j <= k < |kids|
    ensures w[|f| + j] <= w[|f| + k]
  {
    if j < k {
      LaterIsHeavier(f, w, par, kids, j, k - 1);
      var id := |f| + k - 1;
      var x, y := kids[k].0, kids[k].1;
      assert HasKids(f, par, kids[k], |f| + k) && HasKids(f, par, kids[k - 1], id);
      assert x != id ==> w[kids[k - 1].0] <= w[x] && w[kids[k - 1].1] <= w[x];
      assert y != id ==> w[kids[k - 1].0] <= w[y] && w[kids[k - 1].1] <= w[y];
    }
  }

  /** The node `h` steps above `c`. */
  function Above(par: seq<int>, dep: seq<nat>, c: nat, h: nat): (a: nat)
    requires Upward(par) && AreDepths(par, dep) && c < |par| && h <= dep[c]
    ensures a < |par| && dep[a] == dep[c] - h && (h > 0 ==> c < a)
  {
    if h == 0 then c else par[Above(par, dep, c, h - 1)]
  }

  /** The sibling of a node that has children is at least as heavy as either of them. */
  lemma SiblingIsHeavy(f: seq<int>, w: seq<int>, par: seq<int>, kids: seq<(int, int)>, c: nat, a: nat, b: nat)
    requires Forest(f, par, kids) && Weighted(f, w, par, kids) && Greedy(f, w, par, kids)
    requires c < |par| && par[c] == a && a < |par| && b < |par| && a != b && par[a] == par[b] >= 0 && Alive(f, b)
    ensures w[b] >= w[c]
  {
    var j := a - |f|;
    assert HasKids(f, par, kids[j], a);
    if b > a {
      LaterIsHeavier(f, w, par, kids, j, b - |f|);
      AliveIsHeavy(f, w, par, kids, kids[j].0);
      AliveIsHeavy(f, w, par, kids, kids[j].1);
    } else {
      assert InFrontier(par[b], |f| + j);
    }
  }

  lemma {:induction false} HeavyAbove(f: seq<int>, w: seq<int>, par: seq<int>, kids: seq<(int, int)>, dep: seq<nat>,
                                      c: nat, h: nat)
    requires Forest(f, par, kids) && Weighted(f, w, par, kids) && Greedy(f, w, par, kids) && AreDepths(par, dep)
    requires c < |par| && Alive(f, c) && h <= dep[c]
    ensures w[Above(par, dep, c, h)] >= Fib(h + 2)
  {
    if h == 0 {
      AliveIsHeavy(f, w, par, kids, c);
    } else {
      var a := Above(par, dep, c, h - 1);
      var v := par[a];
      HeavyAbove(f, w, par, kids, dep, c, h - 1);
      assert HasKids(f, par, kids[v - |f|], v);
      var b := if kids[v - |f|].0 == a then kids[v - |f|].1 else kids[v - |f|].0;
      assert w[v] == w[a] + w[b];
      if h == 1 {
        AliveIsHeavy(f, w, par, kids, b);
        assert Fib(3) == 2;
      } else {
        HeavyAbove(f, w, par, kids, dep, c, h - 2);
        SiblingIsHeavy(f, w, par, kids, Above(par, dep, c, h - 2), a, b);
      }
    }
  }

  /** The root has the weight of all symbols. */
  lemma {:induction false} WeightAt(f: seq<int>, w: seq<int>, par: seq<int>, kids: seq<(int, int)>, k: nat)
    requires Tree(f, par, kids) && Weighted(f, w, par, kids) && k <= |kids|
    ensures Sum(par, w[..|par|], |f| + k, |f| + k) == w[|par| - 1]
    decreases |kids| - k
  {
    if k == |kids| {
      assert forall c :: 0 <= c < |f| && !Alive(f, c) ==> w[c] == 0;
      TopFrontier(f, par, kids, w[..|par|]);
    } else {
      WeightAt(f, w, par, kids, k + 1);
      FrontierStep(f, par, kids, w[..|par|], k);
    }
  }

  lemma {:induction false} TotalIsSum(f: seq<int>, w: seq<int>, par: seq<int>, n: nat)
    requires n <= |f| <= |par| && |par| <= |w| && Covered(f, par)
    requires forall c :: 0 <= c < |f| ==> w[c] == f[c]
    ensures TotalOf(f, n) == Sum(par, w[..|par|], |f|, n)
  {
    if n != 0 {
      TotalIsSum(f, w, par, n - 1);
    }
  }

  /** A tree with a node deeper than the limit has at least this total frequency. */
  lemma OverflowIsHeavy(f: seq<int>, w: seq<int>, par: seq<int>, kids: seq<(int, int)>, dep: seq<nat>, limit: nat)
    requires Tree(f, par, kids) && Weighted(f, w, par, kids) && Greedy(f, w, par, kids) && AreDepths(par, dep)
    requires Overflow(f, par, dep, limit) > 0
    ensures TotalOf(f, |f|) >= Fib(limit + 3)
  {
    var c := SomeDeep(f, par, dep, limit, |par|);
    var h := dep[c];
    HeavyAbove(f, w, par, kids, dep, c, h);
    var top := Above(par, dep, c, h);
    assert top == par[Above(par, dep, c, h - 1)] && par[top] == -1;
    assert Alive(f, top) && top == |par| - 1;
    WeightAt(f, w, par, kids, 0);
    assert Covered(f, par);
    TotalIsSum(f, w, par, |f|);
    FibMono(limit + 3, h + 2);
  }

  lemma {:induction false} FibMono(a: nat, b: nat)
    requires a <= b
    ensures Fib(a) <= Fib(b)
  {
    if a < b {
      FibMono(a, b - 1);
    }
  }

  lemma {:induction false} SomeDeep(f: seq<int>, par: seq<int>, dep: seq<nat>, limit: nat, n: nat) returns (c: nat)
    requires |dep| == |par| && |f| <= |par| && n <= |par|
    requires Sum(par, Overflows(f, dep, limit), |f|, n) > 0
    ensures c < |par| && Alive(f, c) && dep[c] > limit
  {
    if InFrontier(par[n - 1], |f|) && Overflows(f, dep, limit)[n - 1] > 0 {
      c := n - 1;
    } else {
      c := SomeDeep(f, par, dep, limit, n - 1);
    }
  }

  // ---- tables that force a deep tree --------------------------------------------------

  /** The sum of the frequencies of the first `n` symbols of `order`. */
  function SumOf(f: seq<int>, order: seq<nat>, n: nat): int
    requires n <= |order| && forall i :: 0 <= i < |order| ==> order[i] < |f|
  {
    if n == 0 then 0 else SumOf(f, order, n - 1) + f[order[n - 1]]
  }

  /** In this order, every used symbol but the first two is more frequent than all together
      that come two or more places before it, and than the one before it. */
  predicate Steep(f: seq<int>, order: seq<nat>)
  {
    && (forall i :: 0 <= i < |order| ==> order[i] < |f| && f[order[i]] > 0)
    && (forall i, j :: 0 <= i < j < |order| ==> order[i] != order[j])
    && (forall c :: 0 <= c < |f| && f[c] > 0 ==> c in order)
    && (forall i, j :: 1 <= i < j < |order| ==> f[order[i]] < f[order[j]] && SumOf(f, order, i) < f[order[j]])
  }

  /** The node that the first `k` merges have made of the first symbols. */
  function Chained(f: seq<int>, order: seq<nat>, k: nat): nat
    requires order != []
  {
    if k == 0 then order[0] else |f| + k - 1
  }

  predicate Pair(kid: (int, int), a: int, b: int) { kid == (a, b) || kid == (b, a) }

  /** The first `k` merges each add the next symbol to the chain. */
  predicate ChainTo(f: seq<int>, kids: seq<(int, int)>, order: seq<nat>, k: nat)
    requires order != []
  {
    k < |order| && k <= |kids| && forall i :: 0 <= i < k ==> Pair(kids[i], Chained(f, order, i), order[i + 1])
  }

  lemma Taken(f: seq<int>, par: seq<int>, kids: seq<(int, int)>, order: seq<nat>, k: nat, i: nat)
    requires Forest(f, par, kids) && Steep(f, order) && order != [] && ChainTo(f, kids, order, k) && i < k
    ensures Chained(f, order, i) < |par| && par[Chained(f, order, i)] == |f| + i && par[order[i + 1]] == |f| + i
    ensures forall c :: 0 <= c < |par| && par[c] == |f| + i ==> c == Chained(f, order, i) || c == order[i + 1]
  {
    assert HasKids(f, par, kids[i], |f| + i) && Pair(kids[i], Chained(f, order, i), order[i + 1]);
  }

  /** What merge `k` can choose from. */
  lemma InChain(f: seq<int>, par: seq<int>, kids: seq<(int, int)>, order: seq<nat>, k: nat, x: int)
    requires Forest(f, par, kids) && Steep(f, order) && order != [] && ChainTo(f, kids, order, k) && k < |kids|
    requires 0 <= x < |f| + k && Alive(f, x) && InFrontier(par[x], |f| + k)
    ensures x == Chained(f, order, k) || exists j :: k < j < |order| && x == order[j]
  {
    if x >= |f| {
      if x - |f| + 1 < k {
        Taken(f, par, kids, order, k, x - |f| + 1);
      }
    } else {
      var j :| 0 <= j < |order| && order[j] == x;
      if j <= k && k > 0 {
        Taken(f, par, kids, order, k, if j == 0 then 0 else j - 1);
      }
    }
  }

  /** What is there for merge `k` to choose from. */
  lemma ChainIsFree(f: seq<int>, par: seq<int>, kids: seq<(int, int)>, order: seq<nat>, k: nat, j: nat)
    requires Forest(f, par, kids) && Steep(f, order) && order != [] && ChainTo(f, kids, order, k) && k < |kids|
    requires k < j < |order|
    ensures var p := Chained(f, order, k);
      p < |f| + k < |par| && Alive(f, p) && InFrontier(par[p], |f| + k) && p != order[j] < |f|
    ensures Alive(f, order[j]) && InFrontier(par[order[j]], |f| + k)
  {
    SymbolIsFree(f, par, kids, order, k, j);
    assert k == 0 ==> Alive(f, order[0]);
  }

  lemma SymbolIsFree(f: seq<int>, par: seq<int>, kids: seq<(int, int)>, order: seq<nat>, k: nat, j: nat)
    requires Forest(f, par, kids) && Steep(f, order) && order != [] && ChainTo(f, kids, order, k) && k < j < |order|
    ensures Alive(f, order[j]) && InFrontier(par[order[j]], |f| + k)
  {
    var i := par[order[j]] - |f|;
    if 0 <= i < k {
      Taken(f, par, kids, order, k, i);
    }
  }

  lemma {:induction false} ChainWeight(f: seq<int>, w: seq<int>, par: seq<int>, kids: seq<(int, int)>, order: seq<nat>,
                                       k: nat)
    requires Forest(f, par, kids) && Weighted(f, w, par, kids) && Steep(f, order) && order != []
    requires ChainTo(f, kids, order, k)
    ensures Chained(f, order, k) < |w| && w[Chained(f, order, k)] == SumOf(f, order, k + 1)
  {
    if k == 0 {
      assert w[order[0]] == f[order[0]] && SumOf(f, order, 1) == SumOf(f, order, 0) + f[order[0]];
    } else {
      ChainWeight(f, w, par, kids, order, k - 1);
      assert Pair(kids[k - 1], Chained(f, order, k - 1), order[k]);
      assert w[order[k]] == f[order[k]];
    }
  }

  /** Two different nodes, neither heavier than a node that was left, where only `p` and `q`
      are light, are `p` and `q`. */
  lemma LightPair(w: seq<int>, order: seq<nat>, k: nat, x: nat, y: nat, p: nat, q: nat)
    requires x < |w| && y < |w| && p < |w| && q < |w| && x != y && p != q && k + 1 < |order| && q == order[k + 1]
    requires x == p || exists j :: k < j < |order| && x == order[j]
    requires y == p || exists j :: k < j < |order| && y == order[j]
    requires forall j :: k + 1 < j < |order| ==> order[j] < |w| && w[order[j]] > w[p] && w[order[j]] > w[q]
    requires (x != p && y != p) ==> w[x] <= w[p] && w[y] <= w[p]
    requires (x != q && y != q) ==> w[x] <= w[q] && w[y] <= w[q]
    ensures Pair((x, y), p, q)
  {
  }

  /** One more merge continues the chain: the two least weights are those of the chain and of
      the next symbol, whatever happens among equals. */
  lemma ChainStep(f: seq<int>, w: seq<int>, par: seq<int>, kids: seq<(int, int)>, order: seq<nat>, k: nat)
    requires Forest(f, par, kids) && Weighted(f, w, par, kids) && Greedy(f, w, par, kids) && Steep(f, order)
    requires order != []
    requires ChainTo(f, kids, order, k) && k < |kids| && k + 1 < |order|
    ensures ChainTo(f, kids, order, k + 1)
  {
    hide Forest, Weighted, Greedy, Steep, HasKids, Alive, InFrontier, Chained, SumOf, Pair;
    var x, y, p, q := kids[k].0, kids[k].1, Chained(f, order, k), order[k + 1];
    KidsAre(f, par, kids, k);
    InChain(f, par, kids, order, k, x);
    InChain(f, par, kids, order, k, y);
    ChainIsFree(f, par, kids, order, k, k + 1);
    ChainWeight(f, w, par, kids, order, k);
    SteepWeights(f, w, par, kids, order, k);
    GreedyAt(f, w, par, kids, k, p);
    GreedyAt(f, w, par, kids, k, q);
    LightPair(w, order, k, x, y, p, q);
    assert kids[k] == (x, y);
  }

  lemma KidsAre(f: seq<int>, par: seq<int>, kids: seq<(int, int)>, k: nat)
    requires Forest(f, par, kids) && k < |kids|
    ensures 0 <= kids[k].0 < |f| + k < |par| && 0 <= kids[k].1 < |f| + k && kids[k].0 != kids[k].1
    ensures Alive(f, kids[k].0) && Alive(f, kids[k].1) && par[kids[k].0] == par[kids[k].1] == |f| + k
  {
    assert HasKids(f, par, kids[k], |f| + k);
  }

  lemma SteepWeights(f: seq<int>, w: seq<int>, par: seq<int>, kids: seq<(int, int)>, order: seq<nat>, k: nat)
    requires Forest(f, par, kids) && Weighted(f, w, par, kids) && Steep(f, order) && k + 1 < |order|
    ensures order[k + 1] < |w| && forall j :: k + 1 < j < |order| ==>
      order[j] < |w| && w[order[j]] > SumOf(f, order, k + 1) && w[order[j]] > w[order[k + 1]]
  {
    assert forall j :: k < j < |order| ==> w[order[j]] == f[order[j]];
  }

  /** A root that a merge leaves is at least as heavy as the two that it takes. */
  lemma GreedyAt(f: seq<int>, w: seq<int>, par: seq<int>, kids: seq<(int, int)>, k: nat, r: nat)
    requires Forest(f, par, kids) && Weighted(f, w, par, kids) && Greedy(f, w, par, kids) && k < |kids|
    requires r < |f| + k && Alive(f, r) && InFrontier(par[r], |f| + k)
    ensures kids[k].0 != r && kids[k].1 != r ==> w[kids[k].0] <= w[r] && w[kids[k].1] <= w[r]
  {
    assert HasKids(f, par, kids[k], |f| + k);
  }

  /** The merging does not end before the chain has all symbols. */
  lemma ChainGoesOn(f: seq<int>, par: seq<int>, kids: seq<(int, int)>, order: seq<nat>, k: nat)
    requires Tree(f, par, kids) && Steep(f, order) && order != [] && ChainTo(f, kids, order, k) && k + 1 < |order|
    ensures k < |kids|
  {
    SymbolIsFree(f, par, kids, order, k, k + 1);
    assert par[order[k + 1]] != -1;
  }

  lemma {:induction false} ChainAll(f: seq<int>, w: seq<int>, par: seq<int>, kids: seq<(int, int)>, order: seq<nat>,
                                    k: nat)
    requires Tree(f, par, kids) && Weighted(f, w, par, kids) && Greedy(f, w, par, kids) && Steep(f, order)
    requires order != []
    requires k < |order|
    ensures ChainTo(f, kids, order, k)
  {
    if k > 0 {
      ChainAll(f, w, par, kids, order, k - 1);
      ChainGoesOn(f, par, kids, order, k - 1);
      ChainStep(f, w, par, kids, order, k - 1);
    }
  }

  lemma {:induction false} ChainDepth(f: seq<int>, par: seq<int>, kids: seq<(int, int)>, dep: seq<nat>, order: seq<nat>,
                                      k: nat)
    requires Forest(f, par, kids) && AreDepths(par, dep) && Steep(f, order) && order != [] && ChainTo(f, kids, order, k)
    ensures Chained(f, order, k) < |par| && dep[order[0]] == k + dep[Chained(f, order, k)]
  {
    if k > 0 {
      ChainDepth(f, par, kids, dep, order, k - 1);
      assert Pair(kids[k - 1], Chained(f, order, k - 1), order[k]);
      assert HasKids(f, par, kids[k - 1], |f| + k - 1);
    }
  }

  /** However the merging goes, a steep table with more symbols than the limit allows
      overflows. */
  lemma SteepOverflows(f: seq<int>, w: seq<int>, par: seq<int>, kids: seq<(int, int)>, dep: seq<nat>, order: seq<nat>,
                       limit: nat)
    requires Tree(f, par, kids) && Weighted(f, w, par, kids) && Greedy(f, w, par, kids) && AreDepths(par, dep)
    requires Steep(f, order) && |order| >= limit + 2
    ensures Overflow(f, par, dep, limit) > 0
  {
    ChainAll(f, w, par, kids, order, |order| - 1);
    ChainDepth(f, par, kids, dep, order, |order| - 1);
    var c := order[0];
    assert Alive(f, c) && dep[c] > limit;
    var o := Overflows(f, dep, limit);
    SumUpdate(par, o, |f|, |par|, c, 0);
    SumNonNegative(par, o[c := 0], |f|, |par|);
  }
}
