/** The code lengths a Huffman tree gives, clamped at a maximum: their Kraft sum, and
    what clamping does to it. */
module HuffmanLengths {
  import opened Bits
  import opened HuffmanCode
  import opened HuffmanForest

  predicate Upward(par: seq<int>)
  {
    forall c {:trigger par[c]} :: 0 <= c < |par| ==> par[c] == -1 || c < par[c] < |par|
  }

  /** `dep` gives each node's distance from its root. */
  predicate AreDepths(par: seq<int>, dep: seq<nat>)
    requires Upward(par)
  {
    |dep| == |par|
    && forall c {:trigger par[c]} :: 0 <= c < |par| ==> dep[c] == if par[c] == -1 then 0 else dep[par[c]] + 1
  }

  lemma DepthsExist(par: seq<int>) returns (dep: seq<nat>)
    requires Upward(par)
    ensures AreDepths(par, dep)
  {
    dep := seq(|par|, i => 0);
    var k := |par|;
    while k > 0
      invariant 0 <= k <= |par| == |dep|
      invariant forall c {:trigger par[c]} :: 0 <= k <= c < |par| ==>
        dep[c] == if par[c] == -1 then 0 else dep[par[c]] + 1
    {
      k := k - 1;
      dep := dep[k := if par[k] == -1 then 0 else dep[par[k]] + 1];
    }
  }

  function Clamp(d: nat, max: nat): nat { if d <= max then d else max }

  /** The length of each symbol: its depth, but at most `max`; 0 if it is not used. */
  function Lengths(f: seq<int>, dep: seq<nat>, max: nat): (r: seq<nat>)
    requires |f| <= |dep|
    ensures |r| == |f| && Limited(r, max)
    ensures forall c {:trigger r[c]} :: 0 <= c < |f| ==> r[c] == if Alive(f, c) then Clamp(dep[c], max) else 0
  {
    seq(|f|, c requires 0 <= c < |f| => if Alive(f, c) then Clamp(dep[c], max) else 0)
  }

  function ShareOf(d: nat, max: nat): int { Pow2(max - Clamp(d, max)) }

  function OverOf(d: nat, max: nat): int { if d > max then 1 else 0 }

  function UpperOf(d: nat, max: nat): int { if d < max then Pow2(max - d) else 0 }

  /** One level further down a share halves, unless the length is clamped already. */
  lemma ShareSplits(d: nat, max: nat)
    requires max > 0
    ensures 2 * ShareOf(d + 1, max) == ShareOf(d, max) + OverOf(d + 1, max)
    ensures 2 * UpperOf(d + 1, max) <= UpperOf(d, max)
    ensures OverOf(d + 1, max) == 1 ==> UpperOf(d, max) < ShareOf(d, max)
  {
  }

  lemma UpperIsLess(d: nat, max: nat)
    ensures UpperOf(d, max) <= ShareOf(d, max)
  {
  }

  /** For every node: `s` is the share of the code space its length takes, in units of
      2^-max; `u` is the same for nodes above the maximum depth, else 0; `o` marks the
      nodes whose depth was clamped. */
  predicate AreShares(f: seq<int>, dep: seq<nat>, max: nat, s: seq<int>, o: seq<int>, u: seq<int>)
  {
    && |s| == |o| == |u| == |dep|
    && (forall c {:trigger s[c]} :: 0 <= c < |dep| ==> s[c] == if Alive(f, c) then ShareOf(dep[c], max) else 0)
    && (forall c {:trigger o[c]} :: 0 <= c < |dep| ==> o[c] == if Alive(f, c) then OverOf(dep[c], max) else 0)
    && (forall c {:trigger u[c]} :: 0 <= c < |dep| ==> u[c] == if Alive(f, c) then UpperOf(dep[c], max) else 0)
  }

  lemma SharesExist(f: seq<int>, dep: seq<nat>, max: nat) returns (s: seq<int>, o: seq<int>, u: seq<int>)
    ensures AreShares(f, dep, max, s, o, u)
    ensures o == Overflows(f, dep, max)
  {
    s := seq(|dep|, c requires 0 <= c < |dep| => if Alive(f, c) then ShareOf(dep[c], max) else 0);
    o := Overflows(f, dep, max);
    u := seq(|dep|, c requires 0 <= c < |dep| => if Alive(f, c) then UpperOf(dep[c], max) else 0);
  }

  function Overflows(f: seq<int>, dep: seq<nat>, max: nat): (r: seq<int>)
    ensures |r| == |dep|
    ensures forall c {:trigger r[c]} :: 0 <= c < |dep| ==> r[c] == if Alive(f, c) then OverOf(dep[c], max) else 0
  {
    seq(|dep|, c requires 0 <= c < |dep| => if Alive(f, c) then OverOf(dep[c], max) else 0)
  }

  /** The number of clamped nodes, as `zip_gen_bitlen` counts them. */
  function Overflow(f: seq<int>, par: seq<int>, dep: seq<nat>, max: nat): int
    requires |dep| == |par|
  {
    Sum(par, Overflows(f, dep, max), |f|, |par|)
  }

  /** Every used symbol hangs below a merged node. */
  predicate Covered(f: seq<int>, par: seq<int>)
  {
    |f| <= |par| && forall c {:trigger par[c]} :: 0 <= c < |f| ==> if Alive(f, c) then par[c] >= |f| else par[c] == -1
  }

  /** All symbols are in the frontier of `k`, with the share that their length takes. */
  predicate LengthShares(par: seq<int>, lens: seq<nat>, s: seq<int>, k: nat, max: nat)
    requires Limited(lens, max)
  {
    && |lens| <= |par| == |s|
    && forall c :: 0 <= c < |lens| ==>
         InFrontier(par[c], k) && s[c] == if lens[c] == 0 then 0 else Pow2(max - lens[c])
  }

  lemma SharesAreLengths(f: seq<int>, par: seq<int>, dep: seq<nat>, max: nat, s: seq<int>, o: seq<int>, u: seq<int>)
    requires Upward(par) && AreDepths(par, dep) && Covered(f, par) && max > 0 && AreShares(f, dep, max, s, o, u)
    ensures LengthShares(par, Lengths(f, dep, max), s, |f|, max)
  {
    var lens := Lengths(f, dep, max);
    forall c | 0 <= c < |lens|
      ensures InFrontier(par[c], |f|) && s[c] == if lens[c] == 0 then 0 else Pow2(max - lens[c])
    {
      assert Alive(f, c) ==> par[c] >= |f| && dep[c] == dep[par[c]] + 1;
    }
  }

  lemma {:induction false} KraftIsSum(par: seq<int>, max: nat, lens: seq<nat>, s: seq<int>, k: nat, n: nat)
    requires n <= |lens| && Limited(lens, max) && LengthShares(par, lens, s, k, max)
    ensures KraftOf(lens, n, max) == Sum(par, s, k, n)
  {
    if n != 0 {
      KraftIsSum(par, max, lens, s, k, n - 1);
    }
  }

  /** What replacing node `id` by its children does to the shares `s`, the shares `u`
      above the maximum depth, and the count `o` of clamped nodes: a clamped pair of
      children takes one unit more than their parent. */
  predicate Splits(s: seq<int>, o: seq<int>, u: seq<int>, kid: (int, int), id: int)
    requires 0 <= kid.0 < |s| == |o| == |u| && 0 <= kid.1 < |s| && 0 <= id < |s|
  {
    var full := o[kid.0] + o[kid.1];
    && (full == 0 || full == 2)
    && 2 * (s[kid.0] + s[kid.1] - s[id]) == full
    && u[kid.0] + u[kid.1] <= u[id]
    && (full == 2 ==> u[id] < s[id])
  }

  predicate Balanced(f: seq<int>, par: seq<int>, kids: seq<(int, int)>, one: int, s: seq<int>, o: seq<int>, u: seq<int>)
    requires Tree(f, par, kids)
  {
    && |s| == |o| == |u| == |par|
    && (forall c :: 0 <= c < |f| && !Alive(f, c) ==> s[c] == 0 && o[c] == 0 && u[c] == 0)
    && (forall c :: 0 <= c < |par| ==> u[c] <= s[c] && o[c] >= 0)
    && s[|par| - 1] == one && o[|par| - 1] == 0
    && (forall k :: 0 <= k < |kids| ==> HasKids(f, par, kids[k], |f| + k) && Splits(s, o, u, kids[k], |f| + k))
  }

  lemma SplitsAt(f: seq<int>, dep: seq<nat>, max: nat, s: seq<int>, o: seq<int>, u: seq<int>, kid: (int, int), id: int)
    requires AreShares(f, dep, max, s, o, u) && max > 0
    requires 0 <= kid.0 < |dep| && 0 <= kid.1 < |dep| && 0 <= id < |dep|
    requires Alive(f, kid.0) && Alive(f, kid.1) && Alive(f, id)
    requires dep[kid.0] == dep[kid.1] == dep[id] + 1
    ensures Splits(s, o, u, kid, id)
  {
    var d := dep[id];
    assert s[kid.0] == s[kid.1] == ShareOf(d + 1, max) && s[id] == ShareOf(d, max);
    assert o[kid.0] == o[kid.1] == OverOf(d + 1, max);
    assert u[kid.0] == u[kid.1] == UpperOf(d + 1, max) && u[id] == UpperOf(d, max);
    ShareSplits(d, max);
  }

  lemma KidDepths(f: seq<int>, par: seq<int>, kids: seq<(int, int)>, dep: seq<nat>, k: nat)
    requires Forest(f, par, kids) && AreDepths(par, dep) && k < |kids|
    ensures HasKids(f, par, kids[k], |f| + k)
    ensures dep[kids[k].0] == dep[kids[k].1] == dep[|f| + k] + 1
  {
    assert HasKids(f, par, kids[k], |f| + k);
  }

  lemma KidsSplit(f: seq<int>, par: seq<int>, kids: seq<(int, int)>, dep: seq<nat>, max: nat,
                  s: seq<int>, o: seq<int>, u: seq<int>, k: nat)
    requires Forest(f, par, kids) && max > 0 && AreDepths(par, dep) && k < |kids|
    requires AreShares(f, dep, max, s, o, u)
    ensures HasKids(f, par, kids[k], |f| + k) && Splits(s, o, u, kids[k], |f| + k)
  {
    KidDepths(f, par, kids, dep, k);
    hide Forest, AreDepths, AreShares, Splits;
    SplitsAt(f, dep, max, s, o, u, kids[k], |f| + k);
  }

  lemma SharesOrdered(f: seq<int>, dep: seq<nat>, max: nat, s: seq<int>, o: seq<int>, u: seq<int>, c: nat)
    requires AreShares(f, dep, max, s, o, u) && c < |dep|
    ensures u[c] <= s[c] && o[c] >= 0
    ensures c < |f| && !Alive(f, c) ==> s[c] == 0 && o[c] == 0 && u[c] == 0
  {
    UpperIsLess(dep[c], max);
  }

  lemma RootShare(f: seq<int>, par: seq<int>, dep: seq<nat>, max: nat, s: seq<int>, o: seq<int>, u: seq<int>)
    requires Upward(par) && AreDepths(par, dep) && AreShares(f, dep, max, s, o, u) && max > 0
    requires |par| > |f| && par[|par| - 1] == -1
    ensures s[|par| - 1] == Pow2(max) && o[|par| - 1] == 0
  {
  }

  lemma SharesBalanced(f: seq<int>, par: seq<int>, kids: seq<(int, int)>, dep: seq<nat>, max: nat,
                       s: seq<int>, o: seq<int>, u: seq<int>)
    requires Tree(f, par, kids) && max > 0 && AreDepths(par, dep)
    requires AreShares(f, dep, max, s, o, u)
    ensures Balanced(f, par, kids, Pow2(max), s, o, u)
  {
    RootShare(f, par, dep, max, s, o, u);
    assert |dep| == |par| && |s| == |o| == |u| == |dep|;
    hide HasKids, Forest, AreDepths, AreShares, Splits, Alive;
    forall k | 0 <= k < |kids|
      ensures HasKids(f, par, kids[k], |f| + k) && Splits(s, o, u, kids[k], |f| + k)
    {
      KidsSplit(f, par, kids, dep, max, s, o, u, k);
    }
    forall c | 0 <= c < |par|
      ensures u[c] <= s[c] && o[c] >= 0
      ensures c < |f| && !Alive(f, c) ==> s[c] == 0 && o[c] == 0 && u[c] == 0
    {
      SharesOrdered(f, dep, max, s, o, u, c);
    }
  }

  lemma {:induction false} ExcessAt(f: seq<int>, par: seq<int>, kids: seq<(int, int)>, one: int, k: nat,
                                    s: seq<int>, o: seq<int>, u: seq<int>)
    requires Tree(f, par, kids) && k <= |kids| && Balanced(f, par, kids, one, s, o, u)
    ensures 2 * Sum(par, s, |f| + k, |f| + k) == 2 * one + Sum(par, o, |f| + k, |par|)
    decreases |kids| - k
  {
    if k == |kids| {
      TopFrontier(f, par, kids, s);
      SumOnly(par, o, |par|, |par|);
    } else {
      ExcessAt(f, par, kids, one, k + 1, s, o, u);
      FrontierStep(f, par, kids, s, k);
      TotalStep(f, par, kids, o, k);
      assert Splits(s, o, u, kids[k], |f| + k);
    }
  }

  lemma TreeCovers(f: seq<int>, par: seq<int>, kids: seq<(int, int)>)
    requires Tree(f, par, kids)
    ensures Upward(par) && Covered(f, par) && |f| < |par| == |f| + |kids|
  {
  }

  /** The Kraft sum exceeds one by exactly half the number of clamped nodes. So the
      lengths are those of a complete prefix code if and only if nothing was clamped. */
  lemma KraftExcess(f: seq<int>, par: seq<int>, kids: seq<(int, int)>, dep: seq<nat>, max: nat)
    requires Tree(f, par, kids) && AreDepths(par, dep) && max > 0
    ensures 2 * Kraft(Lengths(f, dep, max), max) == 2 * Pow2(max) + Overflow(f, par, dep, max)
    ensures Overflow(f, par, dep, max) == 0 <==> Kraft(Lengths(f, dep, max), max) == Pow2(max)
  {
    hide Forest, AreShares, Balanced, AreDepths, KraftOf, Sum, LengthShares, Covered;
    TreeCovers(f, par, kids);
    var s, o, u := SharesExist(f, dep, max);
    SharesAreLengths(f, par, dep, max, s, o, u);
    KraftIsSum(par, max, Lengths(f, dep, max), s, |f|, |f|);
    SharesBalanced(f, par, kids, dep, max, s, o, u);
    ExcessAt(f, par, kids, Pow2(max), 0, s, o, u);
  }

  // ---- how many symbols sit at the maximum ------------------------------------------

  lemma {:induction false} SumLess(par: seq<int>, u: seq<int>, s: seq<int>, k: nat, n: nat)
    requires n <= |par| == |u| == |s| && forall c :: 0 <= c < n ==> u[c] <= s[c]
    ensures Sum(par, u, k, n) <= Sum(par, s, k, n)
  {
    if n != 0 {
      SumLess(par, u, s, k, n - 1);
    }
  }

  lemma SumLessStrictly(par: seq<int>, u: seq<int>, s: seq<int>, k: nat, n: nat)
    requires n < |par| == |u| == |s| && forall c :: 0 <= c < |par| ==> u[c] <= s[c]
    requires u[n] < s[n] && InFrontier(par[n], k)
    ensures Sum(par, u, k, n + 1) < Sum(par, s, k, n + 1)
  {
    SumLess(par, u, s, k, n);
  }

  /** Once a node was clamped, the symbols above the maximum depth leave some room. */
  lemma {:induction false} UpperRoom(f: seq<int>, par: seq<int>, kids: seq<(int, int)>, one: int, k: nat,
                                     s: seq<int>, o: seq<int>, u: seq<int>)
    requires Tree(f, par, kids) && k <= |kids| && Balanced(f, par, kids, one, s, o, u)
    ensures Sum(par, u, |f| + k, |f| + k) <= one
    ensures Sum(par, o, |f| + k, |par|) >= 0
    ensures Sum(par, o, |f| + k, |par|) > 0 ==> Sum(par, u, |f| + k, |f| + k) < one
    decreases |kids| - k
  {
    if k == |kids| {
      TopFrontier(f, par, kids, u);
      SumOnly(par, o, |par|, |par|);
    } else {
      UpperRoom(f, par, kids, one, k + 1, s, o, u);
      FrontierStep(f, par, kids, u, k);
      TotalStep(f, par, kids, o, k);
      assert Splits(s, o, u, kids[k], |f| + k);
      if o[kids[k].0] + o[kids[k].1] == 2 {
        ExcessAt(f, par, kids, one, k + 1, s, o, u);
        SumLessStrictly(par, u, s, |f| + k + 1, |f| + k);
      }
    }
  }

  lemma {:induction false} UpperIsByLength(par: seq<int>, max: nat, lens: seq<nat>, u: seq<int>, k: nat, n: nat)
    requires n <= |lens| <= |par| == |u| && 0 < max
    requires forall c :: 0 <= c < |lens| ==>
      InFrontier(par[c], k) && u[c] == if 0 < lens[c] < max then Pow2(max - lens[c]) else 0
    ensures KraftByLength(lens, n, max, max - 1) == Sum(par, u, k, n)
  {
    if n == 0 {
      KraftByLengthZero(lens, max, max - 1);
    } else {
      KraftByLengthStep(lens, n, max, max - 1);
      UpperIsByLength(par, max, lens, u, k, n - 1);
    }
  }

  /** When something was clamped, more symbols have the maximum length than half the
      number of clamped nodes. */
  lemma ManyAtMaximum(f: seq<int>, par: seq<int>, kids: seq<(int, int)>, dep: seq<nat>, max: nat)
    requires Tree(f, par, kids) && AreDepths(par, dep) && max > 0 && Overflow(f, par, dep, max) > 0
    ensures 2 * Count(Lengths(f, dep, max), max) >= Overflow(f, par, dep, max) + 2
  {
    var lens := Lengths(f, dep, max);
    assert Covered(f, par);
    var s, o, u := SharesExist(f, dep, max);
    SharesBalanced(f, par, kids, dep, max, s, o, u);
    UpperRoom(f, par, kids, Pow2(max), 0, s, o, u);
    UpperIsByLength(par, max, lens, u, |f|, |f|);
    KraftExcess(f, par, kids, dep, max);
    KraftByLengthTotal(lens, |lens|, max);
    assert KraftByLength(lens, |lens|, max, max)
        == KraftByLength(lens, |lens|, max, max - 1) + Shl(Count(lens, max), 0);
  }
}
