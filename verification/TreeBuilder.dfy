/** `zip_build_tree` as a whole: from frequencies to lengths, codes and costs. */
module TreeBuilder {
  import opened Bits
  import opened Options
  import opened HuffmanCode
  import opened HuffmanForest
  import opened HuffmanLengths
  import opened HuffmanOptimal
  import opened HuffmanDepth
  import opened HuffmanHeap
  import opened HuffmanBuild
  import opened HuffmanStart
  import opened BitLengths
  import opened LengthLimit
  import opened CodeStrings

  /** The code of a table: symbol `n` is sent as the `dl[n]` low bits of `fc[n]`. */
  predicate Sendable(fc: seq<int>, dl: seq<int>, n: nat)
  {
    n <= |fc| && n <= |dl| && forall c :: 0 <= c < n ==> SendableAt(fc, dl, c)
  }

  predicate SendableAt(fc: seq<int>, dl: seq<int>, c: nat)
    requires c < |fc| && c < |dl|
  {
    0 <= dl[c] <= MAX_BITS && (dl[c] > 0 ==> 0 <= fc[c] < Pow2(dl[c]))
  }

  /** The code is the canonical one for its lengths. */
  predicate Canonical(fc: seq<int>, lens: seq<nat>)
  {
    |lens| <= |fc| &&
    forall c :: 0 <= c < |lens| && lens[c] > 0 ==> fc[c] >= 0 && BitsOf(fc[c], lens[c]) == Codeword(lens, c)
  }

  /** No code for the same frequencies is cheaper. */
  ghost predicate LeastCost(f: seq<int>, lens: seq<nat>)
    requires |f| == |lens|
  {
    forall other: seq<nat>, limit: nat {:trigger Limited(other, limit)} ::
      |other| == |f| && Limited(other, limit) && Kraft(other, limit) <= Pow2(limit)
      && (forall i :: 0 <= i < |f| ==> (other[i] > 0 <==> Alive(f, i)))
      ==> Cost(f, lens, |f|) <= Cost(f, other, |f|)
  }

  /** The lengths and the overflow are those of a tree that was built by merging two nodes of
      least weight at a time. */
  ghost predicate FromMerging(f: seq<int>, lens: seq<nat>, limit: nat, overflow: int)
  {
    exists w: seq<int>, par: seq<int>, kids: seq<(int, int)>, dep: seq<nat> ::
      && Tree(f, par, kids) && Weighted(f, w, par, kids) && Greedy(f, w, par, kids) && AreDepths(par, dep)
      && lens == Lengths(f, dep, limit) && overflow == Overflow(f, par, dep, limit)
  }

  /** What building a tree from the frequencies `f` must achieve: lengths for exactly the
      used symbols, within the limit; without overflow they are a complete and optimal
      prefix code, and with overflow they are over-subscribed, which takes frequencies of a
      certain total. */
  ghost predicate TreeResult(f: seq<int>, lens: seq<nat>, limit: nat, overflow: int)
  {
    && |lens| == |f| && Limited(lens, limit) && FromMerging(f, lens, limit, overflow)
    && (forall c :: 0 <= c < |f| ==> (lens[c] > 0 <==> Alive(f, c)))
    && overflow >= 0
    && 2 * Kraft(lens, limit) == 2 * Pow2(limit) + overflow
    && (overflow == 0 ==> LeastCost(f, lens))
    && (overflow > 0 ==> TotalOf(f, |f|) >= Fib(limit + 3))
  }

  /** The lengths that `zip_gen_bitlen` counts the cost with: for the same symbols, within the
      limit and filling the code space exactly; they are the ones in the table, unless the tree
      overflowed. */
  ghost predicate Estimate(lens: seq<nat>, est: seq<nat>, limit: nat, overflow: int)
  {
    && SameUse(lens, est) && Limited(est, limit) && Kraft(est, limit) == Pow2(limit)
    && (overflow == 0 ==> est == lens)
  }

  lemma TreeLengths(f: seq<int>, w: seq<int>, par: seq<int>, kids: seq<(int, int)>, dep: seq<nat>, limit: nat)
    requires Tree(f, par, kids) && Weighted(f, w, par, kids) && Greedy(f, w, par, kids)
    requires AreDepths(par, dep) && limit > 0
    ensures TreeResult(f, Lengths(f, dep, limit), limit, Overflow(f, par, dep, limit))
  {
    var lens := Lengths(f, dep, limit);
    assert Covered(f, par);
    KraftExcess(f, par, kids, dep, limit);
    forall c | 0 <= c < |f|
      ensures lens[c] > 0 <==> Alive(f, c)
    {
      assert Alive(f, c) ==> dep[c] == dep[par[c]] + 1;
    }
    SumNonNegative(par, Overflows(f, dep, limit), |f|, |par|);
    assert FromMerging(f, lens, limit, Overflow(f, par, dep, limit));
    if Overflow(f, par, dep, limit) > 0 {
      OverflowIsHeavy(f, w, par, kids, dep, limit);
    } else {
      forall other: seq<nat>, m: nat {:trigger Limited(other, m)}
        | |other| == |f| && Limited(other, m) && Kraft(other, m) <= Pow2(m)
          && (forall i :: 0 <= i < |f| ==> (other[i] > 0 <==> Alive(f, i)))
        ensures Cost(f, lens, |f|) <= Cost(f, other, |f|)
      {
        Optimal(f, w, par, kids, dep, limit, other, m);
      }
    }
  }

  /** With a single merge both symbols sit right below the root. */
  lemma TwoSymbols(f: seq<int>, par: seq<int>, kids: seq<(int, int)>, dep: seq<nat>, limit: nat)
    requires Tree(f, par, kids) && AreDepths(par, dep) && |kids| == 1 && limit > 0
    ensures forall c :: 0 <= c < |f| && Alive(f, c) ==> Lengths(f, dep, limit)[c] == 1
    ensures Overflow(f, par, dep, limit) == 0
  {
    forall c | 0 <= c < |f| && Alive(f, c)
      ensures dep[c] == 1
    {
      assert par[c] == |f|;
      assert dep[|f|] == 0;
    }
    assert par[|f|] == -1;
    SumOnly(par, Overflows(f, dep, limit), |f|, |par|);
  }

  /** `zip_gen_bitlen` */
  method GenBitLen(heap: array<int>, heapMax: nat, fc: array<int>, dl: array<int>, blCount: array<int>,
                   maxCode: int, maxLength: nat, extra: seq<nat>, base: nat, sdl: Option<seq<int>>,
                   optLen: int, staticLen: int,
                   ghost f: seq<int>, ghost par: seq<int>, ghost kids: seq<(int, int)>,
                   ghost place: seq<int>, ghost dep: seq<nat>)
    returns (overflow: int, optLen': int, staticLen': int, ghost est: seq<nat>)
    requires dl != heap && dl != fc && dl != blCount && blCount != heap && blCount != fc && fc != heap
    requires sdl.Some? ==> |sdl.value| >= |f|
    requires Sizes(f, fc[..], maxCode, extra, base, maxLength) && blCount.Length == MAX_BITS + 1
    requires Built(f, heap[..], heapMax, fc[..], dl[..], par, kids, place) && AreDepths(par, dep)
    requires maxCode >= 0 && |f| <= Pow2(maxLength)
    modifies fc, dl, blCount
    ensures dl.Length >= |f| && dl[..|f|] == Lengths(f, dep, maxLength)
    ensures overflow == Overflow(f, par, dep, maxLength)
    ensures overflow == 0 ==> fc[..] == old(fc[..]) && Counts(blCount[..], Lengths(f, dep, maxLength))
    ensures NonNegative(blCount[..]) && blCount[0] == 0
    ensures Units(blCount[..], maxLength, maxLength) == Pow2(maxLength)
    ensures Estimate(Lengths(f, dep, maxLength), est, maxLength, overflow)
    ensures optLen' == optLen + Total(f, Lengths(f, dep, maxLength), est, extra, base, |f|)
    ensures sdl.Some? ==>
      staticLen' == staticLen + Total(f, Lengths(f, dep, maxLength), sdl.value, extra, base, |f|)
  {
    hide Built, Sizes, Lengths, Overflow, Counts, Units, SeqSum, LeafSlots, Total, TreeResult, Excessive;
    BuiltFits(f, heap[..], heapMax, fc[..], dl[..], par, kids, place, dep, maxCode, extra, base, maxLength);
    overflow, optLen', staticLen' := AssignLengths(heap, heapMax, fc, dl, blCount, maxCode, maxLength, extra, base, sdl,
                                                   optLen, staticLen, f, par, kids, place, dep);
    ghost var cnt := blCount[..];
    CountsBalance(f, fc[..], par, kids, dep, maxLength, cnt);
    est := Lengths(f, dep, maxLength);
    if overflow > 0 {
      optLen', est := Repair(heap, heapMax, fc, dl, blCount, maxCode, maxLength, overflow, optLen', f, est, place,
        extra, base);
    } else {
      ExactEstimate(f, est, maxLength);
    }
  }

  /** Without an overflow the lengths themselves are the estimate. */
  lemma ExactEstimate(f: seq<int>, lens: seq<nat>, limit: nat)
    requires TreeResult(f, lens, limit, 0)
    ensures Estimate(lens, lens, limit, 0)
  {
  }

  lemma BuiltFits(f: seq<int>, h: seq<int>, max: nat, w: seq<int>, dl: seq<int>, par: seq<int>, kids: seq<(int, int)>,
                  place: seq<int>, dep: seq<nat>, maxCode: int, extra: seq<nat>, base: nat, limit: nat)
    requires Sizes(f, w, maxCode, extra, base, limit) && Built(f, h, max, w, dl, par, kids, place)
    requires AreDepths(par, dep)
    ensures Tree(f, par, kids) && 1 <= limit <= MAX_BITS && max <= |h| && maxCode < |w| && maxCode < |dl|
    ensures forall i :: max <= i < |h| ==> h[i] >= 0
    ensures TreeResult(f, Lengths(f, dep, limit), limit, Overflow(f, par, dep, limit))
    ensures Overflow(f, par, dep, limit) >= 0 && Listed(h, max, maxCode, Lengths(f, dep, limit), place)
    ensures |f| <= |w| && w[..|f|] == f && |f| <= |dl|
  {
    hide Greedy, Weighted, Lengths, Overflow, LeastCost, FromMerging, LinksStored;
    TreeLengths(f, w, par, kids, dep, limit);
    assert place[|par| - 1] == max;
    ListedSymbols(f, h, max, par, place, maxCode, Lengths(f, dep, limit));
    assert maxCode == MaxUsed(f, |f|) < |f| <= |w|;
  }

  /** The length statistics either fill the code space exactly, or exceed it by half the overflow. */
  lemma CountsBalance(f: seq<int>, w: seq<int>, par: seq<int>, kids: seq<(int, int)>, dep: seq<nat>, limit: nat,
                      cnt: seq<int>)
    requires Tree(f, par, kids) && AreDepths(par, dep) && 1 <= limit <= MAX_BITS && |f| <= Pow2(limit)
    requires TreeResult(f, Lengths(f, dep, limit), limit, Overflow(f, par, dep, limit))
    requires Counts(cnt, Lengths(f, dep, limit))
    ensures NonNegative(cnt) && cnt[0] == 0
    ensures 2 * Units(cnt, limit, limit) == 2 * Pow2(limit) + Overflow(f, par, dep, limit)
    ensures Overflow(f, par, dep, limit) > 0 ==>
      Excessive(cnt, limit, Overflow(f, par, dep, limit), SeqSum(cnt, MAX_BITS + 1))
    ensures SeqSum(cnt, MAX_BITS + 1) <= Pow2(limit)
  {
    assert |f| <= |dep|;
    hide LeastCost, Overflow, Tree, Fib;
    var lens := Lengths(f, dep, limit);
    CountsNonNegative(cnt, lens);
    CountsNoneLonger(cnt, lens, limit);
    UnitsAreKraftSum(cnt, lens, limit, limit);
    KraftByLengthTotal(lens, |lens|, limit);
    SeqSumIsRankSum(cnt, lens, MAX_BITS);
    RankSumBound(lens, |lens|, MAX_BITS);
    if Overflow(f, par, dep, limit) > 0 {
      ManyAtMaximum(f, par, kids, dep, limit);
    }
  }

  lemma ListedSymbols(f: seq<int>, h: seq<int>, max: nat, par: seq<int>, place: seq<int>, maxCode: int, lens: seq<nat>)
    requires Ordered(f, h, max, par, place) && |f| <= |par| && maxCode == MaxUsed(f, |f|) && |lens| == |f|
    requires forall c :: 0 <= c < |f| ==> (lens[c] > 0 <==> Alive(f, c))
    ensures Listed(h, max, maxCode, lens, place)
  {
    forall c {:trigger place[c]} | 0 <= c < |lens| && lens[c] > 0
      ensures c <= maxCode && max <= place[c] < |h| && h[place[c]] == c
    {
      assert Alive(f, c);
    }
  }

  /** The rest of `zip_gen_bitlen`, after an overflow. */
  method Repair(heap: array<int>, heapMax: nat, fc: array<int>, dl: array<int>, blCount: array<int>,
                maxCode: int, maxLength: nat, overflow: int, optLen: int,
                ghost f: seq<int>, ghost lens: seq<nat>, ghost place: seq<int>, ghost extra: seq<nat>, ghost base: nat)
    returns (optLen': int, ghost est: seq<nat>)
    requires fc != heap && fc != dl && fc != blCount && blCount != heap && blCount != dl
    requires Excessive(blCount[..], maxLength, overflow, SeqSum(blCount[..], blCount.Length)) && overflow > 0
    requires maxLength <= MAX_BITS && SeqSum(blCount[..], blCount.Length) <= Pow2(maxLength) && heapMax <= heap.Length
    requires SeqSum(blCount[..], blCount.Length) == LeafSlots(heap[..], heapMax, heap.Length, maxCode)
    requires |f| == |lens| <= fc.Length && fc[..|f|] == f && |f| <= dl.Length && dl[..|f|] == lens
    requires Listed(heap[..], heapMax, maxCode, lens, place)
    modifies fc, blCount
    ensures NonNegative(blCount[..]) && blCount[0] == 0
    ensures Units(blCount[..], maxLength, maxLength) == Pow2(maxLength)
    ensures Estimate(lens, est, maxLength, overflow)
    ensures optLen' + Total(f, lens, lens, extra, base, |f|) == optLen + Total(f, lens, est, extra, base, |f|)
  {
    hide Units, SeqSum, LeafSlots, Listed, Excessive, NoneLonger, Total;
    RepairCounts(blCount, maxLength, overflow, SeqSum(blCount[..], blCount.Length));
    optLen', est := RecomputeLengths(heap, heapMax, fc, dl, blCount, maxCode, maxLength, optLen, f, lens, place, extra,
      base);
    UnitsAreKraftSum(blCount[..], est, maxLength, maxLength);
    KraftByLengthTotal(est, |est|, maxLength);
    ChangeInAll(f, lens, est, extra, base);
  }

  // ---- the codes that are forced into use -------------------------------------------

  lemma {:induction false} TotalMoreUse(f: seq<int>, ls: seq<nat>, len: seq<int>, extra: seq<nat>, base: nat,
                                        n: nat, x: nat)
    requires n <= |f| && |f| <= |ls| && |f| <= |len| && x < |f| && f[x] == 0
    ensures Total(f[x := 1], ls, len, extra, base, n)
         == Total(f, ls, len, extra, base, n) + if x < n && ls[x] > 0 then len[x] + XBits(extra, base, x) else 0
  {
    if n != 0 {
      TotalMoreUse(f, ls, len, extra, base, n - 1, x);
    }
  }

  predicate IsUsedCount(f: seq<int>, used: nat) { used == |Used(f, |f|)| }

  /** The frequencies a tree is built for: at least two symbols are in use. */
  function AtLeastTwo(f: seq<int>): (r: seq<int>)
    requires |f| >= 3
    ensures |r| == |f|
  {
    Forced(f, |Used(f, |f|)|)
  }

  lemma {:induction false} ForcedKeeps(f: seq<int>, used: nat, c: nat)
    requires |f| >= 3 && IsUsedCount(f, used) && c < |f| && f[c] != 0
    ensures Forced(f, used)[c] == f[c]
    decreases 2 - used
  {
    if used < 2 {
      ForcedIsNew(f, used);
      ForcedKeeps(f[ForcedSymbol(MaxUsed(f, |f|)) := 1], used + 1, c);
    }
  }

  lemma {:induction false} ForcedNonNegative(f: seq<int>, used: nat)
    requires |f| >= 3 && NonNegative(f)
    ensures NonNegative(Forced(f, used))
    decreases 2 - used
  {
    if used < 2 {
      ForcedNonNegative(f[ForcedSymbol(MaxUsed(f, |f|)) := 1], used + 1);
    }
  }

  /** Forcing codes into use changes the total by exactly what those codes cost. */
  lemma {:induction false} TotalForced(f: seq<int>, used: nat, ls: seq<nat>, len: seq<int>, extra: seq<nat>, base: nat)
    requires |f| >= 3 && |ls| == |f| <= |len| && IsUsedCount(f, used)
    requires forall c :: 0 <= c < |f| && Forced(f, used)[c] > 0 ==> ls[c] > 0
    requires forall c :: 0 <= c < 3 ==> XBits(extra, base, c) == 0
    ensures Total(Forced(f, used), ls, len, extra, base, |f|)
         == Total(f, ls, len, extra, base, |f|) + ForcedSum(f, used, len)
    decreases 2 - used
  {
    if used < 2 {
      var x := ForcedSymbol(MaxUsed(f, |f|));
      ForcedIsNew(f, used);
      ForcedKeeps(f[x := 1], used + 1, x);
      TotalMoreUse(f, ls, len, extra, base, |f|, x);
      TotalForced(f[x := 1], used + 1, ls, len, extra, base);
    }
  }

  lemma {:induction false} ForcedSumOfOnes(f: seq<int>, used: nat, len: seq<int>)
    requires |f| >= 3 && |len| == |f| && IsUsedCount(f, used) && used <= 2
    requires forall c :: 0 <= c < |f| && Forced(f, used)[c] > 0 ==> len[c] == 1
    ensures ForcedSum(f, used, len) == 2 - used
    decreases 2 - used
  {
    if used < 2 {
      var x := ForcedSymbol(MaxUsed(f, |f|));
      ForcedIsNew(f, used);
      ForcedKeeps(f[x := 1], used + 1, x);
      ForcedSumOfOnes(f[x := 1], used + 1, len);
    }
  }

  // ---- the whole method -------------------------------------------------------------

  /** The state in which merging starts. */
  lemma MergingStarts(f: seq<int>, h: seq<int>, len: nat, w: seq<int>, dl: seq<int>, d: seq<int>)
    requires |h| == HEAP_SIZE && 3 <= |f| <= 286 && 2 * |f| <= |w| == |dl| && |d| >= |w|
    requires NonNegative(f) && w[..|f|] == f && 2 <= len <= |f|
    requires HeapOf(h, len, Used(f, |f|), w, d)
    requires forall c {:trigger dl[c]} :: 0 <= c < |f| && f[c] == 0 ==> dl[c] == 0
    requires AtBottom(f, d, |f|)
    ensures Merging(f, h, len, HEAP_SIZE, w, dl, d, seq(|f|, i => -1), [], seq(|f|, i => -1))
  {
    var par: seq<int> := seq(|f|, i => -1);
    assert Roots(f, par) == Used(f, |f|);
    assert forall c :: 0 <= c < |f| ==> w[c] == w[..|f|][c];
    assert Forest(f, par, []) && Weighted(f, w, par, []) && Greedy(f, w, par, []);
    assert Placed(h, HEAP_SIZE, par, par);
  }

  lemma UsedNodes(h: seq<int>, len: nat, f: seq<int>, w: seq<int>)
    requires Holds(h, len, Used(f, |f|)) && |f| <= |w|
    ensures Nodes(h, len, w)
  {
    forall c | 1 <= c <= len
      ensures 0 <= h[c] < |w|
    {
      HoldsIn(h, len, Used(f, |f|), c);
    }
  }

  /** From frequencies to the tree: everything before the lengths are computed. */
  method GrowTree(fc: array<int>, dl: array<int>, heap: array<int>, depth: array<int>, elems: nat,
                  sdl: Option<seq<int>>)
    returns (maxCode: int, optDelta: int, staticDelta: int, heapMax: nat,
             ghost used: nat, ghost par: seq<int>, ghost kids: seq<(int, int)>, ghost place: seq<int>)
    requires heap != fc && heap != dl && heap != depth && fc != dl && fc != depth && dl != depth
    requires sdl.Some? ==> |sdl.value| >= elems
    requires heap.Length == HEAP_SIZE && 3 <= elems <= 286
    requires 2 * elems <= fc.Length == dl.Length <= depth.Length
    requires NonNegative(fc[..elems])
    modifies fc, dl, heap, depth
    ensures IsUsedCount(old(fc[..elems]), used)
    ensures var f := Forced(old(fc[..elems]), used);
      && Built(f, heap[..], heapMax, fc[..], dl[..], par, kids, place) && Tracked(f, fc[..], depth[..], kids)
      && maxCode == MaxUsed(f, |f|) >= 0
      && NonNegative(f)
      && (used < 2 ==> |kids| == 1)
    ensures optDelta == if used < 2 then used - 2 else 0
    ensures sdl.Some? ==> staticDelta == -ForcedSum(old(fc[..elems]), used, sdl.value)
  {
    ghost var f0 := fc[..elems];
    var heapLen;
    heapLen, maxCode := CollectUsed(heap, fc, dl, depth, elems);
    assert Used(fc[..], elems) == Used(f0, elems);
    assert AtBottom(f0, depth[..], elems);
    MaxUsedPrefix(fc[..], f0, elems);
    HoldsSize(heap[..], heapLen, Used(f0, elems));
    used := heapLen;
    ghost var links := dl[..];
    heapLen, maxCode, optDelta, staticDelta := ForceTwo(heap, heapLen, fc, depth, elems, maxCode, sdl);
    ghost var f := fc[..elems];
    ForcedNonNegative(f0, used);
    assert forall c {:trigger links[c]} :: 0 <= c < elems && f[c] == 0 ==> links[c] == 0 by {
      ForcedZeros(f0, used);
    }
    UsedNodes(heap[..], heapLen, f, fc[..]);
    Heapify(heap, heapLen, fc, depth, Used(f, elems));
    MergingStarts(f, heap[..], heapLen, fc[..], dl[..], depth[..]);
    heapMax, par, kids, place := MergeAll(heap, heapLen, fc, dl, depth, elems, f);
  }

  lemma {:induction false} MaxUsedPrefix(a: seq<int>, b: seq<int>, n: nat)
    requires n <= |a| && n <= |b| && a[..n] == b[..n]
    ensures MaxUsed(a, n) == MaxUsed(b, n)
  {
    if n != 0 {
      assert a[n - 1] == a[..n][n - 1] == b[n - 1];
      assert a[..n - 1] == a[..n][..n - 1] == b[..n - 1];
      MaxUsedPrefix(a, b, n - 1);
    }
  }

  lemma {:induction false} ForcedZeros(f: seq<int>, used: nat)
    requires |f| >= 3
    ensures forall c :: 0 <= c < |f| && Forced(f, used)[c] == 0 ==> f[c] == 0
    decreases 2 - used
  {
    if used < 2 {
      ForcedZeros(f[ForcedSymbol(MaxUsed(f, |f|)) := 1], used + 1);
    }
  }

  /** `zip_build_tree` */
  method BuildTree(fc: array<int>, dl: array<int>, heap: array<int>, depth: array<int>, blCount: array<int>,
                   elems: nat, maxLength: nat, extra: seq<nat>, base: nat, sdl: Option<seq<int>>,
                   optLen: int, staticLen: int)
    returns (maxCode: int, overflow: int, optLen': int, staticLen': int, ghost est: seq<nat>)
    requires heap != fc && heap != dl && heap != depth && fc != dl && fc != depth && dl != depth
    requires blCount != fc && blCount != dl && blCount != heap && blCount != depth
    requires sdl.Some? ==> |sdl.value| >= elems
    requires heap.Length == HEAP_SIZE && 3 <= elems <= 286 && blCount.Length == MAX_BITS + 1
    requires 2 * elems <= fc.Length == dl.Length <= depth.Length
    requires 1 <= maxLength <= MAX_BITS && elems <= Pow2(maxLength)
    requires elems <= base + |extra| && (forall c :: 0 <= c < 3 ==> XBits(extra, base, c) == 0)
    requires NonNegative(fc[..elems])
    modifies fc, dl, heap, depth, blCount
    ensures NonNegative(dl[..elems])
    ensures TreeResult(AtLeastTwo(old(fc[..elems])), dl[..elems], maxLength, overflow)
    ensures maxCode == MaxUsed(AtLeastTwo(old(fc[..elems])), elems) >= 0
    ensures Sendable(fc[..], dl[..], elems)
    ensures overflow == 0 ==> Canonical(fc[..], dl[..elems])
    ensures Estimate(dl[..elems], est, maxLength, overflow)
    ensures optLen' == optLen + Total(old(fc[..elems]), dl[..elems], est, extra, base, elems)
    ensures sdl.Some? ==>
      staticLen' == staticLen + Total(old(fc[..elems]), dl[..elems], sdl.value, extra, base, elems)
  {
    hide LeastCost, FromMerging, Fib, TotalOf, KraftOf, Units;
    ghost var f0 := fc[..elems];
    var optDelta, staticDelta, heapMax;
    ghost var used, par, kids, place;
    maxCode, optDelta, staticDelta, heapMax, used, par, kids, place := GrowTree(fc, dl, heap, depth, elems, sdl);
    ghost var f, w := Forced(f0, used), fc[..];
    ghost var dep := DepthsExist(par);
    TreeLengths(f, w, par, kids, dep, maxLength);
    overflow, optLen', staticLen', est := GenBitLen(heap, heapMax, fc, dl, blCount, maxCode, maxLength, extra, base,
      sdl, optLen + optDelta, staticLen + staticDelta, f, par, kids, place, dep);
    ghost var lens := Lengths(f, dep, maxLength);
    if used < 2 {
      TwoSymbols(f, par, kids, dep, maxLength);
      ForcedSumOfOnes(f0, used, est);
    }
    TotalForced(f0, used, lens, est, extra, base);
    if sdl.Some? {
      TotalForced(f0, used, lens, sdl.value, extra, base);
    }
    ghost var fc1 := fc[..];
    GenCodes(fc, dl, maxCode, blCount, lens);
    CodesUsable(fc[..], fc1, dl[..], blCount[..], lens, maxCode, overflow);
  }

  lemma CodesUsable(fc: seq<int>, fc1: seq<int>, dl: seq<int>, cnt: seq<int>, lens: seq<nat>, maxCode: int,
                    overflow: int)
    requires |cnt| == MAX_BITS + 1 && Limited(lens, MAX_BITS) && -1 <= maxCode < |lens| <= |fc| && |lens| <= |dl|
    requires dl[..|lens|] == lens
    requires CodesSet(fc, fc1, cnt, lens, maxCode + 1)
    requires forall c :: maxCode < c < |lens| ==> lens[c] == 0
    ensures Sendable(fc, dl, |lens|)
    ensures Counts(cnt, lens) ==> Canonical(fc, lens)
  {
    forall c | 0 <= c < |lens|
      ensures SendableAt(fc, dl, c)
      ensures Counts(cnt, lens) && lens[c] > 0 ==> fc[c] >= 0 && BitsOf(fc[c], lens[c]) == Codeword(lens, c)
    {
      assert dl[c] == dl[..|lens|][c] == lens[c];
      if lens[c] > 0 {
        assert c <= maxCode;
        assert fc[c] == ReverseBits(Assigned(cnt, lens, c), lens[c]);
        if Counts(cnt, lens) {
          CodesAreCanonical(cnt, lens, c);
        }
      }
    }
  }
}
