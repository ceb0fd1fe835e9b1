/** Merging two least nodes at every step is optimal: no prefix code for the same symbols
    is cheaper than the tree's depths. */
module HuffmanOptimal {
  import opened Bits
  import opened HuffmanCode
  import opened HuffmanForest
  import opened HuffmanLengths

  /** An assignment of lengths to the nodes: `c` is what each node then costs and `u` the
      share of the code space it takes, in units of 2^-max. */
  predicate Assigns(f: seq<int>, w: seq<int>, l: seq<nat>, max: nat, c: seq<int>, u: seq<int>)
  {
    && |c| == |u| == |l| <= |w|
    && (forall i {:trigger l[i]} :: 0 <= i < |l| ==> l[i] <= max)
    && (forall i {:trigger c[i]} :: 0 <= i < |l| ==> c[i] == if Alive(f, i) then w[i] * l[i] else 0)
    && (forall i {:trigger u[i]} :: 0 <= i < |l| ==> u[i] == if Alive(f, i) then Pow2(max - l[i]) else 0)
  }

  /** The weight of the merged nodes from the `k`th on. */
  function InnerWeight(f: seq<int>, w: seq<int>, kids: seq<(int, int)>, k: nat): int
    requires k <= |kids| && |f| + |kids| <= |w|
    decreases |kids| - k
  {
    if k == |kids| then 0 else w[|f| + k] + InnerWeight(f, w, kids, k + 1)
  }

  lemma {:induction false} SumNonNegative(par: seq<int>, val: seq<int>, k: int, n: nat)
    requires n <= |par| && n <= |val|
    requires forall i :: 0 <= i < n ==> val[i] >= 0
    ensures Sum(par, val, k, n) >= 0
  {
    if n != 0 {
      SumNonNegative(par, val, k, n - 1);
    }
  }

  lemma CostNonNegative(w: int, l: int)
    requires w >= 0 && l >= 0
    ensures w * l >= 0
  {
  }

  /** The code space taken by the frontier of `k`, without node `a`, is a whole number of
      units of 2^-top when no other length exceeds `top`. */
  lemma {:induction false} WholeUnits(f: seq<int>, par: seq<int>, l: seq<nat>, u: seq<int>, max: nat, k: int,
                                      a: int, top: nat, n: nat) returns (q: nat)
    requires n <= |par| <= |l| == |u| && 0 <= a < |u| && top <= max
    requires forall i {:trigger l[i]} :: 0 <= i < |l| ==> l[i] <= max
    requires forall i {:trigger u[i]} :: 0 <= i < |l| ==> u[i] == if Alive(f, i) then Pow2(max - l[i]) else 0
    requires forall i :: 0 <= i < n && i != a && Alive(f, i) && InFrontier(par[i], k) ==> l[i] <= top
    ensures Sum(par, u[a := 0], k, n) == Shl(q, max - top)
  {
    if n == 0 {
      q := 0;
      ShlAdd(0, 0, max - top);
    } else {
      q := WholeUnits(f, par, l, u, max, k, a, top, n - 1);
      var i := n - 1;
      if i != a && Alive(f, i) && InFrontier(par[i], k) {
        ShlPow2(top - l[i], max - top);
        ShlAdd(q, Pow2(top - l[i]), max - top);
        q := q + Pow2(top - l[i]);
      }
    }
  }

  // ---- the exchange argument --------------------------------------------------------

  /** A node of the frontier of `k` other than `skip` with the greatest length. */
  lemma {:induction false} Longest(f: seq<int>, par: seq<int>, l: seq<nat>, k: int, skip: int, n: nat, start: int)
    returns (i: int)
    requires n <= |par| == |l| && 0 <= start < n
    requires Alive(f, start) && InFrontier(par[start], k) && start != skip
    ensures 0 <= i < n && Alive(f, i) && InFrontier(par[i], k) && i != skip
    ensures forall r :: 0 <= r < n && Alive(f, r) && InFrontier(par[r], k) && r != skip ==> l[r] <= l[i]
  {
    i := start;
    var j := 0;
    while j < n
      invariant 0 <= j <= n
      invariant 0 <= i < n && Alive(f, i) && InFrontier(par[i], k) && i != skip
      invariant forall r :: 0 <= r < j && Alive(f, r) && InFrontier(par[r], k) && r != skip ==> l[r] <= l[i]
    {
      if Alive(f, j) && InFrontier(par[j], k) && j != skip && l[j] > l[i] {
        i := j;
      }
      j := j + 1;
    }
  }

  lemma SwapIsCheaper(wa: int, wi: int, la: int, li: int)
    requires wa <= wi && la <= li
    ensures wa * li + wi * la <= wa * la + wi * li
  {
    assert (wi - wa) * (li - la) >= 0;
    assert (wi - wa) * (li - la) == wi * li - wi * la - wa * li + wa * la;
  }

  /** Giving the longer of two lengths to the lighter node does not cost more. */
  lemma Swap(f: seq<int>, w: seq<int>, par: seq<int>, l: seq<nat>, max: nat, c: seq<int>, u: seq<int>,
             k: int, n: nat, a: int, i: int)
    returns (l': seq<nat>, c': seq<int>, u': seq<int>)
    requires n <= |par| == |l| && Assigns(f, w, l, max, c, u)
    requires 0 <= a < n && 0 <= i < n && Alive(f, a) && Alive(f, i)
    requires InFrontier(par[a], k) && InFrontier(par[i], k)
    requires a == i || (w[a] <= w[i] && l[a] <= l[i])
    ensures Assigns(f, w, l', max, c', u')
    ensures l' == l[a := l[i]][i := l[a]]
    ensures Sum(par, u', k, n) == Sum(par, u, k, n)
    ensures Sum(par, c', k, n) <= Sum(par, c, k, n)
  {
    l' := l[a := l[i]][i := l[a]];
    if a == i {
      c', u' := c, u;
      assert l' == l;
    } else {
      var c1, u1 := c[a := w[a] * l[i]], u[a := u[i]];
      c', u' := c1[i := w[i] * l[a]], u1[i := u[a]];
      SumUpdate(par, c, k, n, a, w[a] * l[i]);
      SumUpdate(par, c1, k, n, i, w[i] * l[a]);
      SumUpdate(par, u, k, n, a, u[i]);
      SumUpdate(par, u1, k, n, i, u[a]);
      SwapIsCheaper(w[a], w[i], l[a], l[i]);
    }
  }

  /** A unique longest node can be shortened to the next length. */
  lemma Shorten(f: seq<int>, w: seq<int>, par: seq<int>, l: seq<nat>, max: nat, c: seq<int>, u: seq<int>,
                k: int, n: nat, a: int, top: nat)
    returns (c': seq<int>, u': seq<int>)
    requires n <= |par| == |l| && Assigns(f, w, l, max, c, u)
    requires 0 <= a < n && Alive(f, a) && InFrontier(par[a], k) && w[a] >= 0
    requires top <= l[a]
    requires forall r :: 0 <= r < n && r != a && Alive(f, r) && InFrontier(par[r], k) ==> l[r] <= top
    requires Sum(par, u, k, n) <= Pow2(max)
    ensures Assigns(f, w, l[a := top], max, c', u')
    ensures Sum(par, u', k, n) <= Pow2(max)
    ensures Sum(par, c', k, n) <= Sum(par, c, k, n)
  {
    c', u' := c[a := w[a] * top], u[a := Pow2(max - top)];
    SumUpdate(par, c, k, n, a, w[a] * top);
    SwapIsCheaper(0, w[a], top, l[a]);
    SumUpdate(par, u, k, n, a, Pow2(max - top));
    SumUpdate(par, u, k, n, a, 0);
    if l[a] == top {
      assert u' == u;
    } else {
      var q := WholeUnits(f, par, l, u, max, k, a, top, n);
      ShlPow2(top, max - top);
      ShlMono(Pow2(top), q, max - top);
      ShlAdd(q, 1, max - top);
      ShlPow2(0, max - top);
      ShlMono(q + 1, Pow2(top), max - top);
    }
  }

  /** Any assignment can be changed, without taking more code space and without costing
      more, into one that gives the two least nodes the same length. */
  lemma Exchange(f: seq<int>, w: seq<int>, par: seq<int>, kids: seq<(int, int)>, k: nat,
                 l: seq<nat>, max: nat, c: seq<int>, u: seq<int>)
    returns (l': seq<nat>, c': seq<int>, u': seq<int>)
    requires Forest(f, par, kids) && Weighted(f, w, par, kids) && Greedy(f, w, par, kids) && k < |kids|
    requires |par| == |l| && Assigns(f, w, l, max, c, u)
    requires Sum(par, u, |f| + k, |f| + k) <= Pow2(max)
    ensures |l'| == |par| && Assigns(f, w, l', max, c', u')
    ensures HasKids(f, par, kids[k], |f| + k) && l'[kids[k].0] == l'[kids[k].1]
    ensures Sum(par, u', |f| + k, |f| + k) <= Pow2(max)
    ensures Sum(par, c', |f| + k, |f| + k) <= Sum(par, c, |f| + k, |f| + k)
  {
    var id := |f| + k;
    assert HasKids(f, par, kids[k], id);
    var a, b := kids[k].0, kids[k].1;
    var i := Longest(f, par, l, id, -1, id, a);
    if i == b {
      a, b := b, a;
    }
    assert i == a || (par[i] != id && w[a] <= w[i]);
    var l1, c1, u1 := Swap(f, w, par, l, max, c, u, id, id, a, i);
    var j := Longest(f, par, l1, id, a, id, b);
    assert j == b || (par[j] != id && w[b] <= w[j]);
    var l2, c2, u2 := Swap(f, w, par, l1, max, c1, u1, id, id, b, j);
    c', u' := Shorten(f, w, par, l2, max, c2, u2, id, id, a, l2[b]);
    l' := l2[a := l2[b]];
  }

  // ---- the main induction -----------------------------------------------------------

  lemma TwoFill(par: seq<int>, u: seq<int>, id: int, a: int, b: int)
    requires 0 <= a < id < |par| == |u| && 0 <= b < id && a != b && par[a] == id && par[b] == id
    requires forall c {:trigger par[c]} :: 0 <= c < |par| && par[c] == id ==> c == a || c == b
    requires forall i :: 0 <= i < |u| ==> u[i] >= 0
    ensures Sum(par, u, id, id) >= u[a] + u[b]
  {
    SumOpen(par, u, id, id);
    KidSumTwo(par, u, id, a, b, id);
    SumNonNegative(par, u, id + 1, id);
  }

  lemma ParentCost(wa: int, wb: int, x: int)
    ensures wa * x + wb * x - (wa + wb) * (x - 1) == wa + wb
  {
  }

  /** Two children of equal length become their parent, one shorter: the code space is the
      same, and the cost drops by the parent's weight. */
  lemma Contract(f: seq<int>, w: seq<int>, par: seq<int>, kids: seq<(int, int)>, k: nat,
                 l: seq<nat>, max: nat, c: seq<int>, u: seq<int>)
    returns (l': seq<nat>, c': seq<int>, u': seq<int>)
    requires Forest(f, par, kids) && Weighted(f, w, par, kids) && k < |kids|
    requires HasKids(f, par, kids[k], |f| + k) && |par| == |l| && l[kids[k].0] == l[kids[k].1]
    requires Assigns(f, w, l, max, c, u)
    requires Sum(par, u, |f| + k, |f| + k) <= Pow2(max)
    ensures |l'| == |par| && Assigns(f, w, l', max, c', u')
    ensures Sum(par, u', |f| + k + 1, |f| + k + 1) <= Pow2(max)
    ensures Sum(par, c', |f| + k + 1, |f| + k + 1) == Sum(par, c, |f| + k, |f| + k) - w[|f| + k]
  {
    var id, a, b := |f| + k, kids[k].0, kids[k].1;
    var x := l[a];
    TwoFill(par, u, id, a, b);
    assert x > 0;
    l' := l[id := x - 1];
    c', u' := c[id := w[id] * (x - 1)], u[id := Pow2(max - (x - 1))];
    FrontierStep(f, par, kids, c', k);
    FrontierStep(f, par, kids, u', k);
    SumUpdate(par, c, id, id, id, w[id] * (x - 1));
    SumUpdate(par, u, id, id, id, Pow2(max - (x - 1)));
    ParentCost(w[a], w[b], x);
  }

  lemma {:induction false} CheaperNowhere(f: seq<int>, w: seq<int>, par: seq<int>, kids: seq<(int, int)>, k: nat,
                                          l: seq<nat>, max: nat, c: seq<int>, u: seq<int>)
    requires Tree(f, par, kids) && Weighted(f, w, par, kids) && Greedy(f, w, par, kids) && k <= |kids|
    requires |par| == |l| && Assigns(f, w, l, max, c, u)
    requires Sum(par, u, |f| + k, |f| + k) <= Pow2(max)
    ensures Sum(par, c, |f| + k, |f| + k) >= InnerWeight(f, w, kids, k)
    decreases |kids| - k
  {
    if k == |kids| {
      forall i | 0 <= i < |c|
        ensures c[i] >= 0
      {
        CostNonNegative(w[i], l[i]);
      }
      SumNonNegative(par, c, |par|, |par|);
    } else {
      var l1, c1, u1 := Exchange(f, w, par, kids, k, l, max, c, u);
      var l2, c2, u2 := Contract(f, w, par, kids, k, l1, max, c1, u1);
      CheaperNowhere(f, w, par, kids, k + 1, l2, max, c2, u2);
    }
  }

  /** The tree's own depths cost exactly the weight of its merged nodes. */
  lemma {:induction false} DepthCost(f: seq<int>, w: seq<int>, par: seq<int>, kids: seq<(int, int)>, k: nat,
                                     dep: seq<nat>, c: seq<int>)
    requires Tree(f, par, kids) && Weighted(f, w, par, kids) && AreDepths(par, dep) && k <= |kids|
    requires |c| == |par|
    requires forall i {:trigger c[i]} :: 0 <= i < |c| ==> c[i] == if Alive(f, i) then w[i] * dep[i] else 0
    ensures Sum(par, c, |f| + k, |f| + k) == InnerWeight(f, w, kids, k)
    decreases |kids| - k
  {
    if k == |kids| {
      TopFrontier(f, par, kids, c);
    } else {
      var id := |f| + k;
      DepthCost(f, w, par, kids, k + 1, dep, c);
      FrontierStep(f, par, kids, c, k);
      KidDepths(f, par, kids, dep, k);
      ParentCost(w[kids[k].0], w[kids[k].1], dep[id] + 1);
    }
  }

  /** What coding symbols of frequencies `f` with lengths `lens` costs, for the first `n`. */
  function Cost(f: seq<int>, lens: seq<nat>, n: nat): int
    requires n <= |f| && n <= |lens|
  {
    if n == 0 then 0 else Cost(f, lens, n - 1) + f[n - 1] * lens[n - 1]
  }

  lemma {:induction false} CostIsSum(f: seq<int>, par: seq<int>, lens: seq<nat>, c: seq<int>, n: nat)
    requires n <= |f| == |lens| <= |par| == |c| && Covered(f, par)
    requires forall i :: 0 <= i < |f| ==> c[i] == f[i] * lens[i]
    ensures Cost(f, lens, n) == Sum(par, c, |f|, n)
  {
    if n != 0 {
      CostIsSum(f, par, lens, c, n - 1);
    }
  }

  lemma {:induction false} UnitsAreKraft(f: seq<int>, par: seq<int>, lens: seq<nat>, max: nat, u: seq<int>, n: nat)
    requires n <= |f| == |lens| <= |par| == |u| && Covered(f, par) && Limited(lens, max)
    requires forall i :: 0 <= i < |f| ==> u[i] == if lens[i] > 0 then Pow2(max - lens[i]) else 0
    ensures KraftOf(lens, n, max) == Sum(par, u, |f|, n)
  {
    if n != 0 {
      UnitsAreKraft(f, par, lens, max, u, n - 1);
    }
  }

  lemma NodeCosts(f: seq<int>, w: seq<int>, l: seq<nat>) returns (c: seq<int>)
    requires |l| <= |w|
    ensures |c| == |l|
    ensures forall i {:trigger c[i]} :: 0 <= i < |c| ==> c[i] == if Alive(f, i) then w[i] * l[i] else 0
  {
    c := seq(|l|, i requires 0 <= i < |l| => if Alive(f, i) then w[i] * l[i] else 0);
  }

  lemma NodeUnits(f: seq<int>, l: seq<nat>, max: nat) returns (u: seq<int>)
    requires forall i {:trigger l[i]} :: 0 <= i < |l| ==> l[i] <= max
    ensures |u| == |l|
    ensures forall i {:trigger u[i]} :: 0 <= i < |u| ==> u[i] == if Alive(f, i) then Pow2(max - l[i]) else 0
  {
    u := seq(|l|, i requires 0 <= i < |l| => if Alive(f, i) then Pow2(max - l[i]) else 0);
  }

  lemma TreeCost(f: seq<int>, w: seq<int>, par: seq<int>, kids: seq<(int, int)>, dep: seq<nat>, max: nat)
    requires Tree(f, par, kids) && Weighted(f, w, par, kids)
    requires AreDepths(par, dep) && Overflow(f, par, dep, max) == 0
    ensures Cost(f, Lengths(f, dep, max), |f|) == InnerWeight(f, w, kids, 0)
  {
    assert Covered(f, par);
    var c := NodeCosts(f, w, dep);
    DepthCost(f, w, par, kids, 0, dep, c);
    NothingClamped(f, par, dep, max);
    var lens := Lengths(f, dep, max);
    forall i | 0 <= i < |f|
      ensures c[i] == f[i] * lens[i]
    {
      assert w[i] == f[i];
      assert Alive(f, i) ==> lens[i] == dep[i];
    }
    CostIsSum(f, par, lens, c, |f|);
  }

  lemma OtherCost(f: seq<int>, w: seq<int>, par: seq<int>, kids: seq<(int, int)>, other: seq<nat>, limit: nat)
    requires Tree(f, par, kids) && Weighted(f, w, par, kids) && Greedy(f, w, par, kids)
    requires |other| == |f| && Limited(other, limit) && Kraft(other, limit) <= Pow2(limit)
    requires forall i :: 0 <= i < |f| ==> (other[i] > 0 <==> Alive(f, i))
    ensures Cost(f, other, |f|) >= InnerWeight(f, w, kids, 0)
  {
    assert Covered(f, par);
    var l := other + seq(|kids|, i => 0);
    var c := NodeCosts(f, w, l);
    var u := NodeUnits(f, l, limit);
    forall i | 0 <= i < |f|
      ensures c[i] == f[i] * other[i] && u[i] == if other[i] > 0 then Pow2(limit - other[i]) else 0
    {
      assert w[i] == f[i] && l[i] == other[i];
    }
    CostIsSum(f, par, other, c, |f|);
    UnitsAreKraft(f, par, other, limit, u, |f|);
    CheaperNowhere(f, w, par, kids, 0, l, limit, c, u);
  }

  /** No lengths that satisfy Kraft's inequality for the used symbols make a cheaper code
      than the depths of the tree. */
  lemma Optimal(f: seq<int>, w: seq<int>, par: seq<int>, kids: seq<(int, int)>, dep: seq<nat>, max: nat,
                other: seq<nat>, limit: nat)
    requires Tree(f, par, kids) && Weighted(f, w, par, kids) && Greedy(f, w, par, kids)
    requires AreDepths(par, dep) && Overflow(f, par, dep, max) == 0
    requires |other| == |f| && Limited(other, limit) && Kraft(other, limit) <= Pow2(limit)
    requires forall i :: 0 <= i < |f| ==> (other[i] > 0 <==> Alive(f, i))
    ensures Cost(f, Lengths(f, dep, max), |f|) <= Cost(f, other, |f|)
  {
    TreeCost(f, w, par, kids, dep, max);
    OtherCost(f, w, par, kids, other, limit);
  }

  lemma NothingClamped(f: seq<int>, par: seq<int>, dep: seq<nat>, max: nat)
    requires |dep| == |par| && |f| <= |par| && Covered(f, par) && Overflow(f, par, dep, max) == 0
    ensures forall i :: 0 <= i < |f| && Alive(f, i) ==> dep[i] <= max
  {
    var o := Overflows(f, dep, max);
    forall i | 0 <= i < |f| && Alive(f, i)
      ensures dep[i] <= max
    {
      var z := o[i := 0];
      SumUpdate(par, o, |f|, |par|, i, 0);
      SumNonNegative(par, z, |f|, |par|);
    }
  }
}
