/** The forest that repeated merging builds, as parent links: symbols are numbered
    `0..|f|`, merged nodes follow in order of creation, so a parent always has a larger
    number than its children. `par[c] == -1` marks a root, or a symbol that is not used. */
module HuffmanForest {

  /** A used symbol, or a merged node. */
  predicate Alive(f: seq<int>, c: int)
    requires c >= 0
  {
    c >= |f| || f[c] > 0
  }

  /** Node `k` has exactly the two children `kid`. */
  predicate HasKids(f: seq<int>, par: seq<int>, kid: (int, int), k: int)
  {
    && 0 <= kid.0 < k < |par| && 0 <= kid.1 < k && kid.0 != kid.1
    && Alive(f, kid.0) && Alive(f, kid.1)
    && par[kid.0] == k && par[kid.1] == k
    && (forall c {:trigger par[c]} :: 0 <= c < |par| && par[c] == k ==> c == kid.0 || c == kid.1)
  }

  predicate Forest(f: seq<int>, par: seq<int>, kids: seq<(int, int)>)
  {
    && |par| == |f| + |kids|
    && (forall c {:trigger par[c]} :: 0 <= c < |par| ==>
          par[c] == -1 || (|f| <= par[c] < |par| && c < par[c] && Alive(f, c)))
    && (forall k :: 0 <= k < |kids| ==> HasKids(f, par, kids[k], |f| + k))
  }

  /** The weight of a merged node is the sum of its children's. */
  predicate Weighted(f: seq<int>, w: seq<int>, par: seq<int>, kids: seq<(int, int)>)
    requires Forest(f, par, kids)
  {
    && |par| <= |w|
    && (forall c {:trigger w[c]} :: 0 <= c < |f| ==> w[c] == f[c])
    && (forall c :: 0 <= c < |par| ==> w[c] >= 0)
    && (forall k :: 0 <= k < |kids| ==> w[|f| + k] == w[kids[k].0] + w[kids[k].1])
  }

  /** Every merge took two nodes of least weight among those that were roots then. */
  predicate Greedy(f: seq<int>, w: seq<int>, par: seq<int>, kids: seq<(int, int)>)
    requires Forest(f, par, kids) && |par| <= |w|
  {
    forall k, r :: 0 <= k < |kids| && 0 <= r < |f| + k && Alive(f, r) && InFrontier(par[r], |f| + k)
      && par[r] != |f| + k
      ==> w[kids[k].0] <= w[r] && w[kids[k].1] <= w[r]
  }

  function Roots(f: seq<int>, par: seq<int>): set<int>
  {
    set c | 0 <= c < |par| && Alive(f, c) && par[c] == -1
  }

  /** A single tree, whose root is then the newest node. */
  predicate Tree(f: seq<int>, par: seq<int>, kids: seq<(int, int)>)
  {
    && Forest(f, par, kids) && |kids| > 0
    && (forall c {:trigger par[c]} :: 0 <= c < |par| - 1 && Alive(f, c) ==> par[c] != -1)
    && par[|par| - 1] == -1
  }

  // ---- one merge --------------------------------------------------------------------

  function Merged(par: seq<int>, n: int, m: int): seq<int>
    requires 0 <= n < |par| && 0 <= m < |par|
  {
    par[n := |par|][m := |par|] + [-1]
  }

  lemma MergeForest(f: seq<int>, par: seq<int>, kids: seq<(int, int)>, n: int, m: int)
    requires Forest(f, par, kids)
    requires n in Roots(f, par) && m in Roots(f, par) && n != m
    ensures Forest(f, Merged(par, n, m), kids + [(n, m)])
    ensures Roots(f, Merged(par, n, m)) == Roots(f, par) - {n, m} + {|par|}
  {
    var p, q := Merged(par, n, m), kids + [(n, m)];
    forall k | 0 <= k < |q|
      ensures HasKids(f, p, q[k], |f| + k)
    {
      if k < |kids| {
        assert HasKids(f, par, kids[k], |f| + k);
      }
    }
  }

  lemma MergeWeighted(f: seq<int>, w: seq<int>, par: seq<int>, kids: seq<(int, int)>, n: int, m: int)
    requires Forest(f, par, kids) && Weighted(f, w, par, kids)
    requires n in Roots(f, par) && m in Roots(f, par) && n != m && |par| < |w|
    ensures Forest(f, Merged(par, n, m), kids + [(n, m)])
    ensures Weighted(f, w[|par| := w[n] + w[m]], Merged(par, n, m), kids + [(n, m)])
  {
    MergeForest(f, par, kids, n, m);
    var p, q, v := Merged(par, n, m), kids + [(n, m)], w[|par| := w[n] + w[m]];
    forall k | 0 <= k < |q|
      ensures v[|f| + k] == v[q[k].0] + v[q[k].1]
    {
      assert HasKids(f, p, q[k], |f| + k);
    }
  }

  lemma MergeGreedy(f: seq<int>, w: seq<int>, par: seq<int>, kids: seq<(int, int)>, n: int, m: int)
    requires Forest(f, par, kids) && |par| < |w| && Greedy(f, w, par, kids)
    requires n in Roots(f, par) && m in Roots(f, par) && n != m
    requires forall r :: r in Roots(f, par) ==> w[n] <= w[r] && (r != n ==> w[m] <= w[r])
    ensures Forest(f, Merged(par, n, m), kids + [(n, m)])
    ensures Greedy(f, w[|par| := w[n] + w[m]], Merged(par, n, m), kids + [(n, m)])
  {
    MergeForest(f, par, kids, n, m);
    var p, q, v := Merged(par, n, m), kids + [(n, m)], w[|par| := w[n] + w[m]];
    forall k, r | 0 <= k < |q| && 0 <= r < |f| + k && Alive(f, r) && InFrontier(p[r], |f| + k) && p[r] != |f| + k
      ensures v[q[k].0] <= v[r] && v[q[k].1] <= v[r]
    {
      assert HasKids(f, p, q[k], |f| + k);
      if k == |kids| {
        assert r in Roots(f, par);
      } else {
        assert HasKids(f, par, kids[k], |f| + k);
        assert InFrontier(par[r], |f| + k) && par[r] != |f| + k;
      }
    }
  }

  // ---- sums over a frontier ---------------------------------------------------------

  /** Among the nodes below `k`, those that are not children of nodes below `k`. */
  predicate InFrontier(p: int, k: int) { p == -1 || p >= k }

  /** The sum of `val` over the first `n` nodes that are in the frontier of `k`. */
  function Sum(par: seq<int>, val: seq<int>, k: int, n: nat): int
    requires n <= |par| && n <= |val|
  {
    if n == 0 then 0
    else Sum(par, val, k, n - 1) + if InFrontier(par[n - 1], k) then val[n - 1] else 0
  }

  /** The sum of `val` over the children of `k` among the first `n` nodes. */
  function KidSum(par: seq<int>, val: seq<int>, k: int, n: nat): int
    requires n <= |par| && n <= |val|
  {
    if n == 0 then 0
    else KidSum(par, val, k, n - 1) + if par[n - 1] == k then val[n - 1] else 0
  }

  lemma {:induction false} SumOpen(par: seq<int>, val: seq<int>, k: int, n: nat)
    requires n <= |par| && n <= |val| && k >= 0
    ensures Sum(par, val, k, n) == Sum(par, val, k + 1, n) + KidSum(par, val, k, n)
  {
    if n != 0 {
      SumOpen(par, val, k, n - 1);
    }
  }

  lemma {:induction false} KidSumTwo(par: seq<int>, val: seq<int>, k: int, a: int, b: int, n: nat)
    requires n <= |par| && n <= |val|
    requires 0 <= a < |par| && 0 <= b < |par| && a != b && par[a] == k && par[b] == k
    requires |par| <= |val|
    requires forall c :: 0 <= c < |par| && par[c] == k ==> c == a || c == b
    ensures KidSum(par, val, k, n) == (if a < n then val[a] else 0) + (if b < n then val[b] else 0)
  {
    if n != 0 {
      KidSumTwo(par, val, k, a, b, n - 1);
    }
  }

  /** Replacing node `|f| + k` by its two children moves the frontier one step down. */
  lemma FrontierStep(f: seq<int>, par: seq<int>, kids: seq<(int, int)>, val: seq<int>, k: nat)
    requires Forest(f, par, kids) && k < |kids| && |val| == |par|
    ensures HasKids(f, par, kids[k], |f| + k)
    ensures InFrontier(par[|f| + k], |f| + k + 1)
    ensures Sum(par, val, |f| + k, |f| + k)
         == Sum(par, val, |f| + k + 1, |f| + k + 1) - val[|f| + k] + val[kids[k].0] + val[kids[k].1]
  {
    var id := |f| + k;
    assert HasKids(f, par, kids[k], id);
    SumOpen(par, val, id, id);
    KidSumTwo(par, val, id, kids[k].0, kids[k].1, id);
  }

  /** The same for a sum over all nodes above the frontier. */
  lemma TotalStep(f: seq<int>, par: seq<int>, kids: seq<(int, int)>, val: seq<int>, k: nat)
    requires Forest(f, par, kids) && k < |kids| && |val| == |par|
    ensures HasKids(f, par, kids[k], |f| + k)
    ensures Sum(par, val, |f| + k, |par|)
         == Sum(par, val, |f| + k + 1, |par|) + val[kids[k].0] + val[kids[k].1]
  {
    assert HasKids(f, par, kids[k], |f| + k);
    SumOpen(par, val, |f| + k, |par|);
    KidSumTwo(par, val, |f| + k, kids[k].0, kids[k].1, |par|);
  }

  lemma {:induction false} SumUpdate(par: seq<int>, val: seq<int>, k: int, n: nat, i: nat, v: int)
    requires n <= |par| && n <= |val| && i < |val|
    ensures Sum(par, val[i := v], k, n)
         == Sum(par, val, k, n) + if i < n && InFrontier(par[i], k) then v - val[i] else 0
  {
    if n != 0 {
      SumUpdate(par, val, k, n - 1, i, v);
    }
  }

  lemma {:induction false} SumOnly(par: seq<int>, val: seq<int>, k: int, n: nat)
    requires n <= |par| && n <= |val|
    requires forall c :: 0 <= c < n && InFrontier(par[c], k) ==> val[c] == 0
    ensures Sum(par, val, k, n) == 0
  {
    if n != 0 {
      SumOnly(par, val, k, n - 1);
    }
  }

  /** At the top, a tree's frontier is its root. */
  lemma TopFrontier(f: seq<int>, par: seq<int>, kids: seq<(int, int)>, val: seq<int>)
    requires Tree(f, par, kids) && |val| == |par|
    requires forall c :: 0 <= c < |f| && !Alive(f, c) ==> val[c] == 0
    ensures Sum(par, val, |par|, |par|) == val[|par| - 1]
  {
    SumOnly(par, val, |par|, |par| - 1);
  }
}
