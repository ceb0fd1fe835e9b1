/** A stream of symbols, its frequency table, and the bits it takes: counting per symbol
    and counting per frequency agree. */
module SymbolCosts {
  import opened BitLengths

  /** How often `c` occurs. */
  function Occurs(syms: seq<nat>, c: nat): nat
  {
    if syms == [] then 0
    else Occurs(syms[..|syms| - 1], c) + if syms[|syms| - 1] == c then 1 else 0
  }

  lemma OccursSnoc(syms: seq<nat>, x: nat, c: nat)
    ensures Occurs(syms + [x], c) == Occurs(syms, c) + if x == c then 1 else 0
  {
    assert (syms + [x])[..|syms|] == syms;
  }

  lemma {:induction false} OccursConcat(a: seq<nat>, b: seq<nat>, c: nat)
    ensures Occurs(a + b, c) == Occurs(a, c) + Occurs(b, c)
  {
    if b == [] {
      assert a + b == a;
    } else {
      var b1 := b[..|b| - 1];
      assert a + b == (a + b1) + [b[|b| - 1]];
      OccursSnoc(a + b1, b[|b| - 1], c);
      OccursConcat(a, b1, c);
    }
  }

  /** The bits the stream takes, symbol by symbol. */
  function StreamCost(syms: seq<nat>, len: seq<int>, extra: seq<nat>, base: nat): int
    requires forall i :: 0 <= i < |syms| ==> syms[i] < |len|
  {
    if syms == [] then 0
    else
      var last := syms[|syms| - 1];
      StreamCost(syms[..|syms| - 1], len, extra, base) + len[last] + XBits(extra, base, last)
  }

  lemma StreamCostSnoc(syms: seq<nat>, x: nat, len: seq<int>, extra: seq<nat>, base: nat)
    requires forall i :: 0 <= i < |syms| ==> syms[i] < |len|
    requires x < |len|
    ensures StreamCost(syms + [x], len, extra, base)
         == StreamCost(syms, len, extra, base) + len[x] + XBits(extra, base, x)
  {
    assert (syms + [x])[..|syms|] == syms;
  }

  lemma {:induction false} StreamCostConcat(a: seq<nat>, b: seq<nat>, len: seq<int>, extra: seq<nat>, base: nat)
    requires forall i :: 0 <= i < |a| ==> a[i] < |len|
    requires forall i :: 0 <= i < |b| ==> b[i] < |len|
    ensures StreamCost(a + b, len, extra, base) == StreamCost(a, len, extra, base) + StreamCost(b, len, extra, base)
  {
    if b == [] {
      assert a + b == a;
    } else {
      var b1 := b[..|b| - 1];
      assert a + b == (a + b1) + [b[|b| - 1]];
      StreamCostSnoc(a + b1, b[|b| - 1], len, extra, base);
      StreamCostConcat(a, b1, len, extra, base);
    }
  }

  /** `f` is the frequency table of the stream. */
  predicate IsFrequency(f: seq<int>, syms: seq<nat>)
  {
    && (forall i :: 0 <= i < |syms| ==> syms[i] < |f|)
    && (forall c {:trigger f[c]} :: 0 <= c < |f| ==> f[c] == Occurs(syms, c))
  }

  lemma {:induction false} TotalOneMore(f: seq<int>, ls: seq<nat>, len: seq<int>, extra: seq<nat>, base: nat, n: nat,
                                        x: nat)
    requires n <= |f| && |f| <= |ls| && |f| <= |len| && x < |f| && ls[x] > 0
    ensures Total(f[x := f[x] + 1], ls, len, extra, base, n)
         == Total(f, ls, len, extra, base, n) + if x < n then len[x] + XBits(extra, base, x) else 0
  {
    if n != 0 {
      TotalOneMore(f, ls, len, extra, base, n - 1, x);
      if x == n - 1 {
        Distribute(f[x], len[x] + XBits(extra, base, x));
      }
    }
  }

  lemma Distribute(a: int, b: int)
    ensures (a + 1) * b == a * b + b
  {
  }

  lemma {:induction false} TotalOfNothing(f: seq<int>, ls: seq<nat>, len: seq<int>, extra: seq<nat>, base: nat, n: nat)
    requires n <= |f| && n <= |ls| && n <= |len| && forall c :: 0 <= c < n ==> f[c] == 0
    ensures Total(f, ls, len, extra, base, n) == 0
  {
    if n != 0 {
      TotalOfNothing(f, ls, len, extra, base, n - 1);
    }
  }

  /** The sum over the frequency table is the cost of the stream, provided every symbol
      that occurs has a code. */
  lemma {:induction false} TotalIsStreamCost(f: seq<int>, syms: seq<nat>, ls: seq<nat>, len: seq<int>,
                                             extra: seq<nat>, base: nat)
    requires IsFrequency(f, syms) && |f| <= |ls| && |f| <= |len|
    requires forall i :: 0 <= i < |syms| ==> ls[syms[i]] > 0
    ensures forall i :: 0 <= i < |syms| ==> syms[i] < |len|
    ensures Total(f, ls, len, extra, base, |f|) == StreamCost(syms, len, extra, base)
    decreases |syms|
  {
    if syms == [] {
      TotalOfNothing(f, ls, len, extra, base, |f|);
    } else {
      var s1, x := syms[..|syms| - 1], syms[|syms| - 1];
      var g := f[x := f[x] - 1];
      assert IsFrequency(g, s1);
      TotalIsStreamCost(g, s1, ls, len, extra, base);
      TotalOneMore(g, ls, len, extra, base, |f|, x);
      assert g[x := g[x] + 1] == f;
    }
  }

  lemma {:induction false} OccursMember(syms: seq<nat>, i: nat)
    requires i < |syms|
    ensures Occurs(syms, syms[i]) > 0
  {
    if i < |syms| - 1 {
      assert syms[..|syms| - 1][i] == syms[i];
      OccursMember(syms[..|syms| - 1], i);
    }
  }

  lemma {:induction false} OccursOnlyMembers(syms: seq<nat>, c: nat)
    requires Occurs(syms, c) > 0
    ensures c in syms
  {
    if syms[|syms| - 1] != c {
      OccursOnlyMembers(syms[..|syms| - 1], c);
    }
  }
}
