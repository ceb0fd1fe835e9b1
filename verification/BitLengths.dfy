/** Code lengths from the finished tree (`zip_gen_bitlen`, first pass): the lengths, their
    statistics, and the cost of the block. */
module BitLengths {
  import opened Options
  import opened HuffmanCode
  import opened HuffmanForest
  import opened HuffmanLengths
  import opened HuffmanBuild
  import opened HuffmanStart

  /** The number of extra bits that follow the code of symbol `n`. */
  function XBits(extra: seq<nat>, base: nat, n: nat): nat
  {
    if base <= n < base + |extra| then extra[n - base] else 0
  }

  /** The bits it takes to send symbols with frequencies `f`, those with a code in `ls`,
      when symbol `c` takes `len[c]` bits and its extra bits. */
  function Total(f: seq<int>, ls: seq<nat>, len: seq<int>, extra: seq<nat>, base: nat, n: nat): int
    requires n <= |f| && n <= |ls| && n <= |len|
  {
    if n == 0 then 0
    else
      var last := if ls[n - 1] == 0 then 0 else f[n - 1] * (len[n - 1] + XBits(extra, base, n - 1));
      Total(f, ls, len, extra, base, n - 1) + last
  }

  lemma {:induction false} TotalUpdate(f: seq<int>, ls: seq<nat>, len: seq<int>, len': seq<int>, extra: seq<nat>,
                                       base: nat, n: nat, i: nat, v: nat)
    requires n <= |f| && |ls| == |f| && |f| <= |len| == |len'| && i < |f|
    requires ls[i] == 0 && v > 0
    requires forall c :: 0 <= c < |len| && c != i ==> len'[c] == len[c]
    ensures Total(f, ls[i := v], len', extra, base, n)
         == Total(f, ls, len, extra, base, n) + if i < n then f[i] * (len'[i] + XBits(extra, base, i)) else 0
  {
    if n != 0 {
      TotalUpdate(f, ls, len, len', extra, base, n - 1, i, v);
    }
  }

  lemma {:induction false} RankUpdate(ls: seq<nat>, i: nat, v: nat, k: nat, b: nat)
    requires i < |ls| && ls[i] == 0 && v > 0 && b > 0 && k <= |ls|
    ensures Rank(ls[i := v], k, b) == Rank(ls, k, b) + if b == v && i < k then 1 else 0
  {
    if k != 0 {
      RankUpdate(ls, i, v, k - 1, b);
    }
  }

  /** `cnt` is the statistics of the lengths `ls`. */
  predicate Counts(cnt: seq<int>, ls: seq<nat>)
  {
    && |cnt| == MAX_BITS + 1 && cnt[0] == 0
    && (forall b {:trigger cnt[b]} :: 1 <= b <= MAX_BITS ==> cnt[b] == Count(ls, b))
  }

  function SeqSum(s: seq<int>, n: nat): int
    requires n <= |s|
  {
    if n == 0 then 0 else SeqSum(s, n - 1) + s[n - 1]
  }

  lemma {:induction false} SeqSumUpdate(s: seq<int>, n: nat, i: nat, v: int)
    requires n <= |s| && i < |s|
    ensures SeqSum(s[i := v], n) == SeqSum(s, n) + if i < n then v - s[i] else 0
  {
    if n != 0 {
      SeqSumUpdate(s, n - 1, i, v);
    }
  }

  /** How many of positions `[a, b)` hold a symbol. */
  function LeafSlots(h: seq<int>, a: nat, b: nat, maxCode: int): nat
    requires a <= b <= |h|
  {
    if a == b then 0 else LeafSlots(h, a, b - 1, maxCode) + if h[b - 1] <= maxCode then 1 else 0
  }

  /** What the first pass keeps: positions below `pos` have been given their length. */
  predicate Assigning(f: seq<int>, h: seq<int>, max: nat, pos: nat, dl: seq<int>, par: seq<int>, place: seq<int>,
                      dep: seq<nat>, limit: nat, ls: seq<nat>, ov: seq<int>)
  {
    && |par| == |place| == |dep| == |ov| && |ls| == |f| <= |par| <= |dl| && max < pos <= |h|
    && (forall c {:trigger dl[c]} :: 0 <= c < |par| && Alive(f, c) ==>
          dl[c] == if place[c] < pos then Clamp(dep[c], limit) else par[c])
    && (forall c {:trigger dl[c]} :: 0 <= c < |f| && !Alive(f, c) ==> dl[c] == 0)
    && (forall c {:trigger ls[c]} :: 0 <= c < |f| ==>
          ls[c] == if Alive(f, c) && place[c] < pos then Clamp(dep[c], limit) else 0)
    && (forall c {:trigger ov[c]} :: 0 <= c < |par| ==>
          ov[c] == if Alive(f, c) && place[c] < pos then OverOf(dep[c], limit) else 0)
  }

  /** The parent has its length already, so the node's is one more, at most the limit. */
  lemma NextLength(f: seq<int>, h: seq<int>, max: nat, pos: nat, w: seq<int>, dl: seq<int>, par: seq<int>,
                   kids: seq<(int, int)>, place: seq<int>, dep: seq<nat>, limit: nat, ls: seq<nat>, ov: seq<int>)
    requires Tree(f, par, kids) && Ordered(f, h, max, par, place) && AreDepths(par, dep)
    requires Assigning(f, h, max, pos, dl, par, place, dep, limit, ls, ov) && pos < |h| && limit > 0
    ensures 0 <= h[pos] < |par| && 0 <= dl[h[pos]] < |par|
    ensures dl[dl[h[pos]]] == Clamp(dep[h[pos]] - 1, limit) && dep[h[pos]] > 0
    ensures par[h[pos]] >= |f| && ov[h[pos]] == 0 && (h[pos] < |f| ==> ls[h[pos]] == 0)
  {
    var n := h[pos];
    assert place[n] == pos;
    assert n != |par| - 1 && par[n] != -1;
    assert dl[n] == par[n];
    assert place[par[n]] < pos;
    assert dl[par[n]] == Clamp(dep[par[n]], limit);
  }

  /** The nodes above the largest used symbol are inner nodes. */
  lemma NodeOrSymbol(f: seq<int>, h: seq<int>, max: nat, pos: nat, dl: seq<int>, par: seq<int>, place: seq<int>,
                     dep: seq<nat>, limit: nat, ls: seq<nat>, ov: seq<int>, maxCode: int)
    requires Ordered(f, h, max, par, place) && maxCode == MaxUsed(f, |f|)
    requires Assigning(f, h, max, pos, dl, par, place, dep, limit, ls, ov) && pos < |h|
    ensures maxCode < |f| == |ls| && (h[pos] > maxCode ==> h[pos] >= |f|)
  {
    var n := h[pos];
    assert place[n] == pos;
  }

  lemma AssignNode(f: seq<int>, h: seq<int>, max: nat, pos: nat, dl: seq<int>, par: seq<int>, place: seq<int>,
                   dep: seq<nat>, limit: nat, ls: seq<nat>, ov: seq<int>, ls': seq<nat>)
    requires Ordered(f, h, max, par, place)
    requires Assigning(f, h, max, pos, dl, par, place, dep, limit, ls, ov) && pos < |h|
    requires ls' == if h[pos] < |f| then ls[h[pos] := Clamp(dep[h[pos]], limit)] else ls
    ensures Assigning(f, h, max, pos + 1, dl[h[pos] := Clamp(dep[h[pos]], limit)], par, place, dep, limit,
                      ls', ov[h[pos] := OverOf(dep[h[pos]], limit)])
  {
    var n := h[pos];
    assert place[n] == pos && Alive(f, n);
    forall c | 0 <= c < |par| && Alive(f, c) && c != n
      ensures place[c] != pos
    {
      assert h[place[c]] == c;
    }
  }

  /** The numbers the first pass accumulates, and what they count. */
  predicate Tallied(f: seq<int>, h: seq<int>, max: nat, pos: nat, par: seq<int>, ls: seq<nat>, ov: seq<int>,
                    cnt: seq<int>, overflow: int, maxCode: int)
    requires |ov| == |par| && max <= pos <= |h|
  {
    && overflow == Sum(par, ov, |f|, |par|)
    && Counts(cnt, ls)
    && SeqSum(cnt, MAX_BITS + 1) == LeafSlots(h, max, pos, maxCode)
  }

  lemma TallyLeaf(f: seq<int>, h: seq<int>, max: nat, pos: nat, par: seq<int>, ls: seq<nat>, ov: seq<int>,
                  cnt: seq<int>, overflow: int, maxCode: int, bits: nat, o: int)
    requires |ov| == |par| && |ls| == |f| && max <= pos < |h|
    requires Tallied(f, h, max, pos, par, ls, ov, cnt, overflow, maxCode)
    requires 0 <= h[pos] < |f| <= |par| && h[pos] <= maxCode && par[h[pos]] >= |f| && 1 <= bits <= MAX_BITS
    requires ls[h[pos]] == 0 && ov[h[pos]] == 0
    ensures Tallied(f, h, max, pos + 1, par, ls[h[pos] := bits], ov[h[pos] := o], cnt[bits := cnt[bits] + 1],
                    overflow + o, maxCode)
  {
    var n := h[pos];
    SumUpdate(par, ov, |f|, |par|, n, o);
    forall b {:trigger Count(ls, b)} | 1 <= b <= MAX_BITS
      ensures cnt[bits := cnt[bits] + 1][b] == Count(ls[n := bits], b)
    {
      RankUpdate(ls, n, bits, |ls|, b);
    }
    SeqSumUpdate(cnt, MAX_BITS + 1, bits, cnt[bits] + 1);
  }

  lemma TallyInner(f: seq<int>, h: seq<int>, max: nat, pos: nat, par: seq<int>, ls: seq<nat>, ov: seq<int>,
                   cnt: seq<int>, overflow: int, maxCode: int, o: int)
    requires |ov| == |par| && |ls| == |f| && max <= pos < |h|
    requires Tallied(f, h, max, pos, par, ls, ov, cnt, overflow, maxCode)
    requires 0 <= h[pos] < |par| && h[pos] > maxCode && par[h[pos]] >= |f|
    requires ov[h[pos]] == 0
    ensures Tallied(f, h, max, pos + 1, par, ls, ov[h[pos] := o], cnt, overflow + o, maxCode)
  {
    SumUpdate(par, ov, |f|, |par|, h[pos], o);
  }

  /** What is known of a symbol table when the lengths have been assigned. */
  predicate Sizes(f: seq<int>, fc: seq<int>, maxCode: int, extra: seq<nat>, base: nat, limit: nat)
  {
    && |f| <= |fc| && (forall c {:trigger fc[c]} :: 0 <= c < |f| ==> fc[c] == f[c] >= 0)
    && maxCode == MaxUsed(f, |f|) && |f| <= base + |extra| && 1 <= limit <= MAX_BITS
  }

  /** The body of the first pass. */
  method AssignOne(heap: array<int>, pos: nat, fc: array<int>, dl: array<int>, blCount: array<int>,
                   maxCode: int, maxLength: nat, extra: seq<nat>, base: nat, sdl: Option<seq<int>>,
                   overflow: int, optLen: int, staticLen: int,
                   ghost f: seq<int>, ghost max: nat, ghost par: seq<int>, ghost kids: seq<(int, int)>,
                   ghost place: seq<int>, ghost dep: seq<nat>, ghost ls: seq<nat>, ghost ov: seq<int>)
    returns (overflow': int, optLen': int, staticLen': int, ghost ls': seq<nat>, ghost ov': seq<int>)
    requires dl != heap && dl != fc && dl != blCount && blCount != heap && blCount != fc
    requires sdl.Some? ==> |sdl.value| >= |f|
    requires Sizes(f, fc[..], maxCode, extra, base, maxLength)
    requires Tree(f, par, kids) && Ordered(f, heap[..], max, par, place) && AreDepths(par, dep)
    requires Assigning(f, heap[..], max, pos, dl[..], par, place, dep, maxLength, ls, ov) && pos < heap.Length
    requires Tallied(f, heap[..], max, pos, par, ls, ov, blCount[..], overflow, maxCode)
    modifies dl, blCount
    ensures Assigning(f, heap[..], max, pos + 1, dl[..], par, place, dep, maxLength, ls', ov')
    ensures Tallied(f, heap[..], max, pos + 1, par, ls', ov', blCount[..], overflow', maxCode)
    ensures optLen' - optLen == Total(f, ls', ls', extra, base, |f|) - Total(f, ls, ls, extra, base, |f|)
    ensures sdl.Some? ==>
      staticLen' - staticLen == Total(f, ls', sdl.value, extra, base, |f|) - Total(f, ls, sdl.value, extra, base, |f|)
  {
    overflow', optLen', staticLen', ls', ov' := overflow, optLen, staticLen, ls, ov;
    ghost var links, cnt := dl[..], blCount[..];
    NextLength(f, heap[..], max, pos, fc[..], links, par, kids, place, dep, maxLength, ls, ov);
    NodeOrSymbol(f, heap[..], max, pos, links, par, place, dep, maxLength, ls, ov, maxCode);
    hide MaxUsed;
    var n := heap[pos];
    var bits := dl[dl[n]] + 1;
    if bits > maxLength {
      bits := maxLength;
      overflow' := overflow' + 1;
    }
    ghost var o := OverOf(dep[n], maxLength);
    assert bits == Clamp(dep[n], maxLength) && overflow' == overflow + o;
    dl[n] := bits;
    assert dl[..] == links[n := bits];
    ov' := ov[n := o];
    if n > maxCode {
      TallyInner(f, heap[..], max, pos, par, ls, ov, cnt, overflow, maxCode, o);
    } else {
      ls' := ls[n := bits];
      TallyLeaf(f, heap[..], max, pos, par, ls, ov, cnt, overflow, maxCode, bits, o);
      blCount[bits] := blCount[bits] + 1;
      assert blCount[..] == cnt[bits := cnt[bits] + 1];
      var xbits := 0;
      if n >= base {
        xbits := extra[n - base];
      }
      TotalUpdate(f, ls, ls, ls', extra, base, |f|, n, bits);
      optLen' := optLen' + fc[n] * (bits + xbits);
      if sdl.Some? {
        TotalUpdate(f, ls, sdl.value, sdl.value, extra, base, |f|, n, bits);
        staticLen' := staticLen' + fc[n] * (sdl.value[n] + xbits);
      }
    }
    AssignNode(f, heap[..], max, pos, links, par, place, dep, maxLength, ls, ov, ls');
  }

  lemma {:induction false} TotalOfNone(f: seq<int>, ls: seq<nat>, len: seq<int>, extra: seq<nat>, base: nat, n: nat)
    requires n <= |f| && n <= |ls| && n <= |len| && forall c :: 0 <= c < n ==> ls[c] == 0
    ensures Total(f, ls, len, extra, base, n) == 0
  {
    if n != 0 {
      TotalOfNone(f, ls, len, extra, base, n - 1);
    }
  }

  lemma {:induction false} RankOfNone(ls: seq<nat>, k: nat, b: nat)
    requires k <= |ls| && b > 0 && forall c :: 0 <= c < |ls| ==> ls[c] == 0
    ensures Rank(ls, k, b) == 0
  {
    if k != 0 {
      RankOfNone(ls, k - 1, b);
    }
  }

  lemma {:induction false} SeqSumOfZeros(s: seq<int>, n: nat)
    requires n <= |s| && forall c :: 0 <= c < n ==> s[c] == 0
    ensures SeqSum(s, n) == 0
  {
    if n != 0 {
      SeqSumOfZeros(s, n - 1);
    }
  }

  /** The state after the root has been given length 0. */
  lemma AssignRoot(f: seq<int>, h: seq<int>, max: nat, dl: seq<int>, par: seq<int>, kids: seq<(int, int)>,
                   place: seq<int>, dep: seq<nat>, limit: nat, cnt: seq<int>, maxCode: int, ls: seq<nat>, ov: seq<int>)
    requires Tree(f, par, kids) && Ordered(f, h, max, par, place) && AreDepths(par, dep) && LinksStored(f, dl, par)
    requires |cnt| == MAX_BITS + 1 && forall b :: 0 <= b < |cnt| ==> cnt[b] == 0
    requires maxCode == MaxUsed(f, |f|)
    requires |ls| == |f| && (forall c :: 0 <= c < |ls| ==> ls[c] == 0)
    requires |ov| == |par| && (forall c :: 0 <= c < |ov| ==> ov[c] == 0)
    ensures h[max] == |par| - 1
    ensures Assigning(f, h, max, max + 1, dl[h[max] := 0], par, place, dep, limit, ls, ov)
    ensures Tallied(f, h, max, max + 1, par, ls, ov, cnt, 0, maxCode)
  {
    assert place[|par| - 1] == max;
    forall c | 0 <= c < |par| && Alive(f, c) && place[c] < max + 1
      ensures c == |par| - 1
    {
      assert h[place[c]] == c;
    }
    SumOnly(par, ov, |f|, |par|);
    forall b {:trigger Count(ls, b)} | 1 <= b <= MAX_BITS
      ensures cnt[b] == Count(ls, b)
    {
      RankOfNone(ls, |ls|, b);
    }
    SeqSumOfZeros(cnt, |cnt|);
  }

  method ClearCounts(blCount: array<int>)
    requires blCount.Length == MAX_BITS + 1
    modifies blCount
    ensures forall b :: 0 <= b <= MAX_BITS ==> blCount[b] == 0
  {
    var bits := 0;
    while bits <= MAX_BITS
      invariant 0 <= bits <= MAX_BITS + 1
      invariant forall b :: 0 <= b < bits ==> blCount[b] == 0
    {
      blCount[bits] := 0;
      bits := bits + 1;
    }
  }

  /** The first pass of `zip_gen_bitlen`. */
  method AssignLengths(heap: array<int>, heapMax: nat, fc: array<int>, dl: array<int>, blCount: array<int>,
                       maxCode: int, maxLength: nat, extra: seq<nat>, base: nat, sdl: Option<seq<int>>,
                       optLen: int, staticLen: int,
                       ghost f: seq<int>, ghost par: seq<int>, ghost kids: seq<(int, int)>,
                       ghost place: seq<int>, ghost dep: seq<nat>)
    returns (overflow: int, optLen': int, staticLen': int)
    requires dl != heap && dl != fc && dl != blCount && blCount != heap && blCount != fc
    requires sdl.Some? ==> |sdl.value| >= |f|
    requires Sizes(f, fc[..], maxCode, extra, base, maxLength) && blCount.Length == MAX_BITS + 1
    requires Built(f, heap[..], heapMax, fc[..], dl[..], par, kids, place) && AreDepths(par, dep)
    modifies dl, blCount
    ensures var ls := Lengths(f, dep, maxLength);
      && |dl[..]| >= |f| && dl[..|f|] == ls
      && overflow == Overflow(f, par, dep, maxLength)
      && Counts(blCount[..], ls)
      && SeqSum(blCount[..], MAX_BITS + 1) == LeafSlots(heap[..], heapMax, heap.Length, maxCode)
      && optLen' == optLen + Total(f, ls, ls, extra, base, |f|)
      && (sdl.Some? ==> staticLen' == staticLen + Total(f, ls, sdl.value, extra, base, |f|))
  {
    ghost var ls, ov := seq(|f|, i => 0), seq(|par|, i => 0);
    ClearCounts(blCount);
    ghost var links := dl[..];
    AssignRoot(f, heap[..], heapMax, links, par, kids, place, dep, maxLength, blCount[..], maxCode, ls, ov);
    dl[heap[heapMax]] := 0;
    assert dl[..] == links[heap[heapMax] := 0];
    TotalOfNone(f, ls, ls, extra, base, |f|);
    if sdl.Some? {
      TotalOfNone(f, ls, sdl.value, extra, base, |f|);
    }
    overflow, optLen', staticLen' := 0, optLen, staticLen;
    var pos := heapMax + 1;
    while pos < HEAP_SIZE
      invariant heapMax < pos <= HEAP_SIZE
      invariant Assigning(f, heap[..], heapMax, pos, dl[..], par, place, dep, maxLength, ls, ov)
      invariant Tallied(f, heap[..], heapMax, pos, par, ls, ov, blCount[..], overflow, maxCode)
      invariant optLen' == optLen + Total(f, ls, ls, extra, base, |f|)
      invariant sdl.Some? ==> staticLen' == staticLen + Total(f, ls, sdl.value, extra, base, |f|)
    {
      overflow, optLen', staticLen', ls, ov := AssignOne(heap, pos, fc, dl, blCount, maxCode, maxLength, extra, base,
        sdl, overflow, optLen', staticLen', f, heapMax, par, kids, place, dep, ls, ov);
      pos := pos + 1;
    }
    AllAssigned(f, heap[..], heapMax, dl[..], par, place, dep, maxLength, ls, ov);
  }

  lemma AllAssigned(f: seq<int>, h: seq<int>, max: nat, dl: seq<int>, par: seq<int>, place: seq<int>,
                    dep: seq<nat>, limit: nat, ls: seq<nat>, ov: seq<int>)
    requires Ordered(f, h, max, par, place)
    requires Assigning(f, h, max, |h|, dl, par, place, dep, limit, ls, ov)
    ensures ls == Lengths(f, dep, limit) && ov == Overflows(f, dep, limit)
    ensures dl[..|f|] == ls
  {
    forall c | 0 <= c < |par| && Alive(f, c)
      ensures place[c] < |h|
    {
    }
  }
}
