/** The length limit (`zip_gen_bitlen`, after the first pass): clamping leaves too many
    codes, and the length statistics are repaired until they fit again. */
module LengthLimit {
  import opened Bits
  import opened HuffmanCode
  import opened BitLengths

  predicate NonNegative(s: seq<int>) { forall i :: 0 <= i < |s| ==> s[i] >= 0 }

  /** The Kraft sum of the statistics, lengths up to `len`, in units of 2^-max. */
  function Units(cnt: seq<int>, max: nat, len: nat): nat
    requires len <= max < |cnt| && NonNegative(cnt)
  {
    if len == 0 then 0 else Units(cnt, max, len - 1) + Shl(cnt[len], max - len)
  }

  lemma {:induction false} UnitsUpdate(cnt: seq<int>, max: nat, len: nat, i: nat, v: nat)
    requires len <= max < |cnt| && NonNegative(cnt) && 1 <= i < |cnt|
    ensures NonNegative(cnt[i := v])
    ensures i <= len ==>
      Units(cnt[i := v], max, len) + Shl(cnt[i], max - i) == Units(cnt, max, len) + Shl(v, max - i)
    ensures i > len ==> Units(cnt[i := v], max, len) == Units(cnt, max, len)
  {
    if len != 0 {
      UnitsUpdate(cnt, max, len - 1, i, v);
    }
  }

  lemma {:induction false} UnitsAreKraftSum(cnt: seq<int>, lens: seq<nat>, max: nat, len: nat)
    requires Counts(cnt, lens) && len <= max <= MAX_BITS && NonNegative(cnt)
    ensures Units(cnt, max, len) == KraftByLength(lens, |lens|, max, len)
  {
    if len != 0 {
      UnitsAreKraftSum(cnt, lens, max, len - 1);
    }
  }

  lemma CountsNonNegative(cnt: seq<int>, lens: seq<nat>)
    requires Counts(cnt, lens)
    ensures NonNegative(cnt)
  {
  }

  /** The sum of the ranks of lengths `1..b` among the first `k` symbols. */
  function RankSum(lens: seq<nat>, k: nat, b: nat): nat
    requires k <= |lens|
  {
    if b == 0 then 0 else RankSum(lens, k, b - 1) + Rank(lens, k, b)
  }

  lemma {:induction false} RankSumStep(lens: seq<nat>, k: nat, b: nat)
    requires 0 < k <= |lens|
    ensures RankSum(lens, k, b) <= RankSum(lens, k - 1, b) + 1
    ensures lens[k - 1] > b ==> RankSum(lens, k, b) == RankSum(lens, k - 1, b)
  {
    if b != 0 {
      RankSumStep(lens, k, b - 1);
      if lens[k - 1] == b {
        RankSumStep(lens, k, b - 1);
      }
    }
  }

  lemma {:induction false} RankSumBound(lens: seq<nat>, k: nat, b: nat)
    requires k <= |lens|
    ensures RankSum(lens, k, b) <= k
  {
    if k == 0 {
      RankSumZero(lens, b);
    } else {
      RankSumStep(lens, k, b);
      RankSumBound(lens, k - 1, b);
    }
  }

  lemma {:induction false} RankSumZero(lens: seq<nat>, b: nat)
    ensures RankSum(lens, 0, b) == 0
  {
    if b != 0 {
      RankSumZero(lens, b - 1);
    }
  }

  lemma {:induction false} SeqSumIsRankSum(cnt: seq<int>, lens: seq<nat>, b: nat)
    requires Counts(cnt, lens) && b <= MAX_BITS
    ensures SeqSum(cnt, b + 1) == RankSum(lens, |lens|, b)
  {
    if b != 0 {
      SeqSumIsRankSum(cnt, lens, b - 1);
    }
  }

  lemma {:induction false} SeqSumAtLeast(cnt: seq<int>, n: nat, i: nat)
    requires n <= |cnt| && NonNegative(cnt)
    ensures SeqSum(cnt, n) >= 0 && (i < n ==> SeqSum(cnt, n) >= cnt[i])
  {
    if n != 0 {
      SeqSumAtLeast(cnt, n - 1, i);
    }
  }

  lemma {:induction false} UnitsOfNone(cnt: seq<int>, max: nat, len: nat)
    requires len <= max < |cnt| && NonNegative(cnt) && forall b :: 1 <= b <= len ==> cnt[b] == 0
    ensures Units(cnt, max, len) == 0
  {
    if len != 0 {
      UnitsOfNone(cnt, max, len - 1);
      ShlAdd(0, 0, max - len);
    }
  }

  /** What the repair loop keeps: the statistics describe as many codes as before, and take
      `overflow / 2` units more than there are; that many and one more are at the limit. */
  predicate Excessive(cnt: seq<int>, max: nat, overflow: int, leaves: int)
  {
    && 1 <= max < |cnt| == MAX_BITS + 1 && NonNegative(cnt) && cnt[0] == 0
    && overflow >= 0 && 2 * Units(cnt, max, max) == 2 * Pow2(max) + overflow
    && 2 * cnt[max] >= overflow + 2
    && SeqSum(cnt, |cnt|) == leaves && NoneLonger(cnt, max)
  }

  predicate NoneLonger(cnt: seq<int>, max: nat)
  {
    |cnt| == MAX_BITS + 1 && forall b :: max < b < |cnt| ==> cnt[b] == 0
  }

  /** Codes that are all at the limit take one unit each. */
  lemma AllAtLimit(cnt: seq<int>, max: nat)
    requires 1 <= max < |cnt| && NonNegative(cnt) && forall b :: 1 <= b < max ==> cnt[b] == 0
    ensures Units(cnt, max, max) == cnt[max] <= SeqSum(cnt, |cnt|)
  {
    UnitsOfNone(cnt, max, max - 1);
    SeqSumAtLeast(cnt, |cnt|, max);
  }

  /** While codes are in excess, some code is shorter than the limit. */
  lemma ShorterExists(cnt: seq<int>, max: nat, overflow: int, leaves: int)
    requires Excessive(cnt, max, overflow, leaves) && overflow > 0 && leaves <= Pow2(max)
    ensures exists b :: 1 <= b < max && cnt[b] > 0
  {
    if forall b :: 1 <= b < max ==> cnt[b] == 0 {
      AllAtLimit(cnt, max);
    }
  }

  function Moved(cnt: seq<int>, max: nat, bits: nat): seq<int>
    requires 1 <= bits < max < |cnt|
  {
    var c1 := cnt[bits := cnt[bits] - 1];
    var c2 := c1[bits + 1 := c1[bits + 1] + 2];
    c2[max := c2[max] - 1]
  }

  /** Moving a code of length `bits` down, with a code from the limit as its brother,
      removes one unit of excess. */
  lemma MoveRemovesUnit(cnt: seq<int>, max: nat, bits: nat, overflow: int, leaves: int)
    requires Excessive(cnt, max, overflow, leaves) && overflow > 0
    requires 1 <= bits < max && cnt[bits] > 0
    ensures Excessive(Moved(cnt, max, bits), max, overflow - 2, leaves)
  {
    hide Units, SeqSum, Shl;
    MoveUnits(cnt, max, bits);
    var c1 := cnt[bits := cnt[bits] - 1];
    var c2 := c1[bits + 1 := c1[bits + 1] + 2];
    SeqSumUpdate(cnt, |cnt|, bits, cnt[bits] - 1);
    SeqSumUpdate(c1, |cnt|, bits + 1, c1[bits + 1] + 2);
    SeqSumUpdate(c2, |cnt|, max, c2[max] - 1);
  }

  lemma MoveUnits(cnt: seq<int>, max: nat, bits: nat)
    requires 1 <= bits < max < |cnt| && NonNegative(cnt) && cnt[bits] > 0 && cnt[max] > 0
    ensures NonNegative(Moved(cnt, max, bits))
    ensures Units(Moved(cnt, max, bits), max, max) == Units(cnt, max, max) - 1
  {
    hide Units;
    var c1 := cnt[bits := cnt[bits] - 1];
    var c2 := c1[bits + 1 := c1[bits + 1] + 2];
    UnitsUpdate(cnt, max, max, bits, cnt[bits] - 1);
    UnitsUpdate(c1, max, max, bits + 1, c1[bits + 1] + 2);
    UnitsUpdate(c2, max, max, max, c2[max] - 1);
    ShlAdd(cnt[bits] - 1, 1, max - bits);
    ShlAdd(c1[bits + 1], 2, max - bits - 1);
    ShlShl(1, 1, max - bits - 1);
    assert Shl(1, 1) == 2;
    assert Shl(c2[max], 0) == c2[max] && Shl(c2[max] - 1, 0) == c2[max] - 1;
  }

  /** The length of some code shorter than the limit, the longest such. */
  method FindShorter(blCount: array<int>, maxLength: nat, ghost overflow: int, ghost leaves: int) returns (bits: nat)
    requires Excessive(blCount[..], maxLength, overflow, leaves) && overflow > 0 && leaves <= Pow2(maxLength)
    ensures 1 <= bits < maxLength && blCount[bits] > 0
  {
    ShorterExists(blCount[..], maxLength, overflow, leaves);
    ghost var b :| 1 <= b < maxLength && blCount[..][b] > 0;
    bits := maxLength - 1;
    while blCount[bits] == 0
      invariant b <= bits < maxLength
      decreases bits
    {
      bits := bits - 1;
    }
    assert blCount[..][bits] >= 0;
  }

  /** The do-while loop that follows an overflow. */
  method RepairCounts(blCount: array<int>, maxLength: nat, overflow0: int, ghost leaves: int)
    requires Excessive(blCount[..], maxLength, overflow0, leaves)
    requires leaves <= Pow2(maxLength) && overflow0 > 0
    modifies blCount
    ensures NonNegative(blCount[..]) && blCount.Length == MAX_BITS + 1 && blCount[0] == 0
    ensures Units(blCount[..], maxLength, maxLength) == Pow2(maxLength)
    ensures SeqSum(blCount[..], MAX_BITS + 1) == leaves && NoneLonger(blCount[..], maxLength)
  {
    var overflow := overflow0;
    while overflow > 0
      invariant overflow % 2 == 0
      invariant Excessive(blCount[..], maxLength, overflow, leaves)
    {
      var bits := FindShorter(blCount, maxLength, overflow, leaves);
      ghost var cnt := blCount[..];
      MoveRemovesUnit(cnt, maxLength, bits, overflow, leaves);
      blCount[bits] := blCount[bits] - 1;
      blCount[bits + 1] := blCount[bits + 1] + 2;
      blCount[maxLength] := blCount[maxLength] - 1;
      assert blCount[..] == Moved(cnt, maxLength, bits);
      overflow := overflow - 2;
    }
  }

  lemma {:induction false} LeafSlotsMono(h: seq<int>, a: nat, b: nat, maxCode: int)
    requires a <= b <= |h| && LeafSlots(h, a, b, maxCode) > 0
    ensures b > a
  {
  }

  // ---- the lengths that are handed out ------------------------------------------------

  lemma {:induction false} SeqSumPrefix(s: seq<int>, a: nat, b: nat)
    requires a <= b <= |s| && forall i :: a <= i < b ==> s[i] == 0
    ensures SeqSum(s, a) == SeqSum(s, b)
  {
    if a < b {
      SeqSumPrefix(s, a, b - 1);
    }
  }

  lemma {:induction false} RankOfLonger(lens: seq<nat>, k: nat, b: nat, max: nat)
    requires k <= |lens| && Limited(lens, max) && b > max
    ensures Rank(lens, k, b) == 0
  {
    if k != 0 {
      RankOfLonger(lens, k - 1, b, max);
    }
  }

  lemma CountsNoneLonger(cnt: seq<int>, lens: seq<nat>, max: nat)
    requires Counts(cnt, lens) && Limited(lens, max)
    ensures NoneLonger(cnt, max)
  {
    forall b | max < b < |cnt|
      ensures cnt[b] == 0
    {
      RankOfLonger(lens, |lens|, b, max);
    }
  }

  /** Positions from `max` on hold every symbol with a length, each once. */
  predicate Listed(h: seq<int>, max: nat, maxCode: int, lens: seq<nat>, place: seq<int>)
  {
    && max <= |h| && maxCode < |lens| <= |place|
    && (forall c {:trigger place[c]} :: 0 <= c < |lens| && lens[c] > 0 ==>
          c <= maxCode && max <= place[c] < |h| && h[place[c]] == c)
    && (forall i {:trigger h[i]} :: max <= i < |h| && h[i] <= maxCode ==>
          0 <= h[i] && lens[h[i]] > 0 && place[h[i]] == i)
  }

  /** The symbols from `pos` on have been given a new length, which replaces the frequency if it
      differs from the old one. */
  predicate Handed(f: seq<int>, lens: seq<nat>, place: seq<int>, pos: nat, est: seq<nat>, limit: nat, fc: seq<int>)
  {
    && |est| == |lens| == |f| <= |fc| && |f| <= |place| && Limited(est, limit)
    && (forall c {:trigger est[c]} :: 0 <= c < |est| ==> (est[c] > 0 <==> lens[c] > 0 && place[c] >= pos))
    && (forall c {:trigger fc[c]} :: 0 <= c < |est| ==>
          fc[c] == if est[c] > 0 && est[c] != lens[c] then est[c] else f[c])
  }

  /** All lengths above `bits` have been handed out, and all but `n` of length `bits`; for the
      others there are symbols left. */
  predicate Dealt(cnt: seq<int>, est: seq<nat>, bits: nat, n: int, h: seq<int>, max: nat, pos: nat, maxCode: int)
  {
    && |cnt| == MAX_BITS + 1 && bits <= MAX_BITS && max <= pos <= |h|
    && (forall b {:trigger Count(est, b)} :: 1 <= b <= MAX_BITS ==>
          Count(est, b) == if b > bits then cnt[b] else if b == bits then cnt[b] - n else 0)
    && SeqSum(cnt, bits) + n == LeafSlots(h, max, pos, maxCode)
  }

  /** What the last loop keeps. */
  predicate Handing(f: seq<int>, lens: seq<nat>, place: seq<int>, pos: nat, est: seq<nat>, limit: nat, fc: seq<int>,
                    cnt: seq<int>, bits: nat, n: int, h: seq<int>, max: nat, maxCode: int)
  {
    && Handed(f, lens, place, pos, est, limit, fc) && Dealt(cnt, est, bits, n, h, max, pos, maxCode) && bits <= limit
  }

  lemma HandingStarts(f: seq<int>, lens: seq<nat>, place: seq<int>, est: seq<nat>, limit: nat, fc: seq<int>,
                      cnt: seq<int>, h: seq<int>, max: nat, maxCode: int)
    requires Listed(h, max, maxCode, lens, place) && |f| == |lens| <= |fc| && fc[..|f|] == f
    requires limit <= MAX_BITS && NoneLonger(cnt, limit) && SeqSum(cnt, |cnt|) == LeafSlots(h, max, |h|, maxCode)
    requires |est| == |f| && forall c :: 0 <= c < |est| ==> est[c] == 0
    ensures Handing(f, lens, place, |h|, est, limit, fc, cnt, limit, cnt[limit], h, max, maxCode)
  {
    SeqSumPrefix(cnt, limit + 1, |cnt|);
    forall b {:trigger Count(est, b)} | 1 <= b <= MAX_BITS
      ensures Count(est, b) == 0
    {
      RankOfNone(est, |est|, b);
    }
    forall c {:trigger fc[c]} | 0 <= c < |est|
      ensures fc[c] == f[c]
    {
      assert fc[..|f|][c] == f[c];
    }
  }

  /** A merged node has no length to be replaced. */
  lemma HandInner(f: seq<int>, lens: seq<nat>, place: seq<int>, pos: nat, est: seq<nat>, limit: nat, fc: seq<int>,
                  cnt: seq<int>, bits: nat, n: int, h: seq<int>, max: nat, maxCode: int)
    requires Handing(f, lens, place, pos, est, limit, fc, cnt, bits, n, h, max, maxCode)
    requires Listed(h, max, maxCode, lens, place) && pos > max && h[pos - 1] > maxCode
    ensures Handing(f, lens, place, pos - 1, est, limit, fc, cnt, bits, n, h, max, maxCode)
  {
    forall c {:trigger est[c]} | 0 <= c < |est|
      ensures est[c] > 0 <==> lens[c] > 0 && place[c] >= pos - 1
    {
      assert lens[c] > 0 ==> h[place[c]] == c;
    }
  }

  lemma HandLeaf(f: seq<int>, lens: seq<nat>, place: seq<int>, pos: nat, est: seq<nat>, limit: nat, fc: seq<int>,
                 cnt: seq<int>, bits: nat, n: int, h: seq<int>, max: nat, maxCode: int, fc': seq<int>)
    requires Handing(f, lens, place, pos, est, limit, fc, cnt, bits, n, h, max, maxCode) && bits > 0
    requires Listed(h, max, maxCode, lens, place) && pos > max && h[pos - 1] <= maxCode
    requires fc' == if lens[h[pos - 1]] != bits then fc[h[pos - 1] := bits] else fc
    ensures est[h[pos - 1]] == 0 && fc[h[pos - 1]] == f[h[pos - 1]]
    ensures Handing(f, lens, place, pos - 1, est[h[pos - 1] := bits], limit, fc', cnt, bits, n - 1, h, max, maxCode)
  {
    var m := h[pos - 1];
    assert lens[m] > 0 && place[m] == pos - 1;
    assert est[m] == 0;
    var more := est[m := bits];
    forall b {:trigger Count(more, b)} | 1 <= b <= MAX_BITS
      ensures Count(more, b) == if b > bits then cnt[b] else if b == bits then cnt[b] - (n - 1) else 0
    {
      assert Count(est, b) == Rank(est, |est|, b);
      RankUpdate(est, m, bits, |est|, b);
    }
    forall c {:trigger more[c]} | 0 <= c < |more|
      ensures more[c] > 0 <==> lens[c] > 0 && place[c] >= pos - 1
    {
      assert c != m ==> more[c] == est[c];
      assert lens[c] > 0 ==> h[place[c]] == c;
    }
  }

  lemma HandNext(f: seq<int>, lens: seq<nat>, place: seq<int>, pos: nat, est: seq<nat>, limit: nat, fc: seq<int>,
                 cnt: seq<int>, bits: nat, h: seq<int>, max: nat, maxCode: int)
    requires Handing(f, lens, place, pos, est, limit, fc, cnt, bits, 0, h, max, maxCode) && bits > 0
    ensures Handing(f, lens, place, pos, est, limit, fc, cnt, bits - 1, cnt[bits - 1], h, max, maxCode)
  {
  }

  /** In the end every symbol has its new length, and the statistics are those of the new ones. */
  lemma HandingEnds(f: seq<int>, lens: seq<nat>, place: seq<int>, pos: nat, est: seq<nat>, limit: nat, fc: seq<int>,
                    cnt: seq<int>, h: seq<int>, max: nat, maxCode: int)
    requires Handing(f, lens, place, pos, est, limit, fc, cnt, 0, 0, h, max, maxCode) && cnt[0] == 0
    requires Listed(h, max, maxCode, lens, place)
    ensures SameUse(lens, est) && Limited(est, limit) && Counts(cnt, est)
  {
    forall c {:trigger est[c]} | 0 <= c < |est|
      ensures est[c] > 0 <==> lens[c] > 0
    {
      if lens[c] > 0 && place[c] < pos {
        NoSlots(h, max, pos, maxCode, place[c]);
      }
    }
  }

  lemma {:induction false} NoSlots(h: seq<int>, a: nat, b: nat, maxCode: int, i: nat)
    requires a <= i < b <= |h| && LeafSlots(h, a, b, maxCode) == 0
    ensures h[i] > maxCode
  {
    if i < b - 1 {
      NoSlots(h, a, b - 1, maxCode, i);
    }
  }

  /** Both give a length to the same symbols. */
  predicate SameUse(a: seq<nat>, b: seq<nat>)
  {
    |a| == |b| && forall c {:trigger b[c]} :: 0 <= c < |a| ==> (b[c] > 0 <==> a[c] > 0)
  }

  lemma {:induction false} TotalSameUse(f: seq<int>, a: seq<nat>, b: seq<nat>, len: seq<int>, extra: seq<nat>,
                                        base: nat, n: nat)
    requires n <= |f| && n <= |a| && n <= |len| && SameUse(a, b)
    ensures Total(f, a, len, extra, base, n) == Total(f, b, len, extra, base, n)
  {
    if n != 0 {
      TotalSameUse(f, a, b, len, extra, base, n - 1);
      assert b[n - 1] > 0 <==> a[n - 1] > 0;
    }
  }

  /** What the new lengths of the symbols in `est` change in the cost. */
  function Change(f: seq<int>, lens: seq<nat>, est: seq<nat>, extra: seq<nat>, base: nat): int
    requires |f| == |lens| == |est|
  {
    Total(f, est, est, extra, base, |f|) - Total(f, est, lens, extra, base, |f|)
  }

  lemma ChangeMore(f: seq<int>, lens: seq<nat>, est: seq<nat>, extra: seq<nat>, base: nat, m: nat, bits: nat)
    requires |f| == |lens| == |est| && m < |f| && est[m] == 0 && bits > 0
    ensures Change(f, lens, est[m := bits], extra, base) == Change(f, lens, est, extra, base) + (bits - lens[m]) * f[m]
  {
    TotalUpdate(f, est, est, est[m := bits], extra, base, |f|, m, bits);
    TotalUpdate(f, est, lens, lens, extra, base, |f|, m, bits);
    var x := XBits(extra, base, m);
    assert f[m] * (bits + x) - f[m] * (lens[m] + x) == (bits - lens[m]) * f[m];
  }

  lemma NoChange(f: seq<int>, lens: seq<nat>, est: seq<nat>, extra: seq<nat>, base: nat)
    requires |f| == |lens| == |est| && forall c :: 0 <= c < |est| ==> est[c] == 0
    ensures Change(f, lens, est, extra, base) == 0
  {
    TotalOfNone(f, est, est, extra, base, |f|);
    TotalOfNone(f, est, lens, extra, base, |f|);
  }

  lemma ChangeInAll(f: seq<int>, lens: seq<nat>, est: seq<nat>, extra: seq<nat>, base: nat)
    requires |f| == |lens| == |est| && SameUse(lens, est)
    ensures Total(f, lens, lens, extra, base, |f|) + Change(f, lens, est, extra, base)
         == Total(f, lens, est, extra, base, |f|)
  {
    TotalSameUse(f, lens, est, est, extra, base, |f|);
    TotalSameUse(f, lens, est, lens, extra, base, |f|);
  }

  /** The last loop: walks the symbols in order of increasing frequency and hands out the
      repaired lengths. What it stores replaces the frequency, not the length; the cost is
      counted as if it were the length. */
  method RecomputeLengths(heap: array<int>, heapMax: nat, fc: array<int>, dl: array<int>, blCount: array<int>,
                          maxCode: int, maxLength: nat, optLen: int,
                          ghost f: seq<int>, ghost lens: seq<nat>, ghost place: seq<int>,
                          ghost extra: seq<nat>, ghost base: nat)
    returns (optLen': int, ghost est: seq<nat>)
    requires fc != heap && fc != dl && fc != blCount
    requires maxLength <= MAX_BITS && NonNegative(blCount[..]) && NoneLonger(blCount[..], maxLength) && blCount[0] == 0
    requires |f| == |lens| <= fc.Length && fc[..|f|] == f && |f| <= dl.Length && dl[..|f|] == lens
    requires Listed(heap[..], heapMax, maxCode, lens, place)
    requires SeqSum(blCount[..], MAX_BITS + 1) == LeafSlots(heap[..], heapMax, heap.Length, maxCode)
    modifies fc
    ensures SameUse(lens, est) && Limited(est, maxLength) && Counts(blCount[..], est)
    ensures forall c :: 0 <= c < |f| ==> fc[c] == if est[c] > 0 && est[c] != lens[c] then est[c] else f[c]
    ensures forall c :: |f| <= c < fc.Length ==> fc[c] == old(fc[c])
    ensures optLen' == optLen + Change(f, lens, est, extra, base)
  {
    hide Listed, Handing, SeqSum, LeafSlots, Change, NoneLonger;
    optLen', est := optLen, seq(|f|, i => 0);
    assert forall i :: 0 <= i < |blCount[..]| ==> blCount[..][i] == blCount[i];
    assert blCount.Length == MAX_BITS + 1 by {
      StatisticsSize(blCount[..], maxLength);
    }
    var h: nat := heap.Length;
    var bits: nat := maxLength;
    HandingStarts(f, lens, place, est, maxLength, fc[..], blCount[..], heap[..], heapMax, maxCode);
    NoChange(f, lens, est, extra, base);
    while bits != 0
      invariant bits <= maxLength && h <= heap.Length && |est| == |f|
      invariant Handing(f, lens, place, h, est, maxLength, fc[..], blCount[..], bits, blCount[bits], heap[..], heapMax,
                        maxCode)
      invariant optLen' == optLen + Change(f, lens, est, extra, base)
      invariant forall c :: |f| <= c < fc.Length ==> fc[c] == old(fc[c])
    {
      var n := blCount[bits];
      while n != 0
        invariant 0 <= n && h <= heap.Length && |est| == |f|
        invariant Handing(f, lens, place, h, est, maxLength, fc[..], blCount[..], bits, n, heap[..], heapMax, maxCode)
        invariant optLen' == optLen + Change(f, lens, est, extra, base)
        invariant forall c :: |f| <= c < fc.Length ==> fc[c] == old(fc[c])
        decreases h
      {
        ghost var was := fc[..];
        SlotLeft(f, lens, place, h, est, maxLength, was, blCount[..], bits, n, heap[..], heapMax, maxCode);
        h := h - 1;
        var m := heap[h];
        if m > maxCode {
          HandInner(f, lens, place, h + 1, est, maxLength, was, blCount[..], bits, n, heap[..], heapMax, maxCode);
          continue;
        }
        InList(heap[..], heapMax, maxCode, lens, place, h);
        assert dl[m] == dl[..|f|][m] == lens[m];
        HandLeaf(f, lens, place, h + 1, est, maxLength, was, blCount[..], bits, n, heap[..], heapMax, maxCode,
          if lens[m] != bits then was[m := bits] else was);
        ChangeMore(f, lens, est, extra, base, m, bits);
        if dl[m] != bits {
          optLen' := optLen' + (bits - dl[m]) * fc[m];
          fc[m] := bits;
          assert fc[..] == was[m := bits];
        }
        est := est[m := bits];
        n := n - 1;
      }
      HandNext(f, lens, place, h, est, maxLength, fc[..], blCount[..], bits, heap[..], heapMax, maxCode);
      bits := bits - 1;
    }
    HandingEnds(f, lens, place, h, est, maxLength, fc[..], blCount[..], heap[..], heapMax, maxCode);
    HandedAll(f, lens, place, h, est, maxLength, fc[..], blCount[..], heap[..], heapMax, maxCode);
  }

  /** As long as lengths are left there is a symbol for them. */
  lemma SlotLeft(f: seq<int>, lens: seq<nat>, place: seq<int>, pos: nat, est: seq<nat>, limit: nat, fc: seq<int>,
                 cnt: seq<int>, bits: nat, n: int, h: seq<int>, max: nat, maxCode: int)
    requires Handing(f, lens, place, pos, est, limit, fc, cnt, bits, n, h, max, maxCode) && n > 0 && NonNegative(cnt)
    ensures max < pos <= |h|
  {
    SeqSumAtLeast(cnt, bits, 0);
    LeafSlotsMono(h, max, pos, maxCode);
  }

  lemma StatisticsSize(cnt: seq<int>, max: nat)
    requires NoneLonger(cnt, max)
    ensures |cnt| == MAX_BITS + 1
  {
  }

  lemma InList(h: seq<int>, max: nat, maxCode: int, lens: seq<nat>, place: seq<int>, i: nat)
    requires Listed(h, max, maxCode, lens, place) && max <= i < |h| && h[i] <= maxCode
    ensures 0 <= h[i] < |lens| && lens[h[i]] > 0
  {
  }

  lemma HandedAll(f: seq<int>, lens: seq<nat>, place: seq<int>, pos: nat, est: seq<nat>, limit: nat, fc: seq<int>,
                  cnt: seq<int>, h: seq<int>, max: nat, maxCode: int)
    requires Handing(f, lens, place, pos, est, limit, fc, cnt, 0, 0, h, max, maxCode)
    ensures |est| == |lens| == |f| <= |fc|
    ensures forall c :: 0 <= c < |f| ==> fc[c] == if est[c] > 0 && est[c] != lens[c] then est[c] else f[c]
  {
  }
}
