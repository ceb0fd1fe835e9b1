/** The Huffman code of the text: the lengths that suit its frequencies, the code length symbols
    that they are sent with, and what both cost. */
module TextCode {
  import opened Bits
  import opened HuffmanCode
  import opened Rfc1951
  import opened HuffmanForest
  import opened HuffmanOptimal
  import opened HuffmanDepth
  import opened BitLengths
  import opened SymbolCosts
  import opened HuffmanStart
  import opened TreeBuilder
  import opened TreeHeader
  import opened CodeTables
  import opened BlockWriter
  import opened SteepText

  // ---- the frequencies ------------------------------------------------------------------

  /** The code lengths that suit the text. */
  function LengthOf(c: nat): (l: nat)
    ensures l <= 9
  {
    if c < 109 then 8
    else if c == 222 || c == 225 || c == 256 then 9
    else if c < 180 || c % 2 == 1 || c == 224 || c == 226 || c > 256 then 0
    else if c < 222 then 8
    else if c < 238 then 9
    else if c < 248 then 7
    else if c < 254 then 4
    else 2
  }

  function Share(l: nat): nat
    requires l <= 9
  {
    if l == 0 then 0 else Pow2(9 - l)
  }

  lemma Shares()
    ensures Share(0) == 0 && Share(2) == 128 && Share(4) == 32 && Share(7) == 4 && Share(8) == 2 && Share(9) == 1
  {
    assert Pow2(0) == 1 && Pow2(1) == 2 && Pow2(2) == 4 && Pow2(3) == 8 && Pow2(4) == 16 && Pow2(5) == 32;
    assert Pow2(6) == 64 && Pow2(7) == 128;
  }

  predicate TextTable(f: seq<int>)
  {
    |f| == L_CODES && forall c {:trigger f[c]} :: 0 <= c < |f| ==> f[c] == Share(LengthOf(c))
  }

  lemma TextOccurs(c: nat)
    ensures Occurs(Text(), c) + (if c == END_OF_BLOCK then 1 else 0) == Share(LengthOf(c))
  {
    hide Share;
    OccursInText(SIZE, c);
    Shares();
  }

  lemma OccursOne(x: nat, v: nat)
    ensures Occurs([x], v) == if x == v then 1 else 0
  {
    OccursSnoc([], x, v);
    assert [] + [x] == [x];
  }

  lemma TextTableOf(f: seq<int>, syms: seq<nat>)
    requires |f| == L_CODES && IsFrequency(f, syms) && syms == [END_OF_BLOCK] + Text()
    ensures TextTable(f)
  {
    hide Share, LengthOf, Text, Occurs;
    forall c {:trigger f[c]} | 0 <= c < |f|
      ensures f[c] == Share(LengthOf(c))
    {
      TextOccurs(c);
      OccursConcat([END_OF_BLOCK], Text(), c);
      OccursOne(END_OF_BLOCK, c);
    }
  }

  // ---- the lengths of the literal tree --------------------------------------------------

  /** Against any other length the right one wins in cost what it may lose in code space. */
  lemma Tangent(l: nat, best: nat)
    requires 1 <= l <= MAX_BITS && best in {2, 4, 7, 8, 9}
    ensures 128 * (Share(best) * l) + 3 * Pow2(MAX_BITS - l)
         >= 128 * (Share(best) * best) + 3 * Pow2(MAX_BITS - best) + if l != best then 1 else 0
  {
    Shares();
    LargeShares();
  }

  lemma LargeShares()
    ensures Pow2(0) == 1 && Pow2(1) == 2 && Pow2(2) == 4 && Pow2(3) == 8 && Pow2(4) == 16 && Pow2(5) == 32
    ensures Pow2(6) == 64 && Pow2(7) == 128 && Pow2(8) == 256 && Pow2(9) == 512 && Pow2(10) == 1024
    ensures Pow2(11) == 2048 && Pow2(12) == 4096 && Pow2(13) == 8192 && Pow2(14) == 16384 && Pow2(15) == 32768
  {
  }

  function Best(): (r: seq<nat>)
    ensures |r| == L_CODES && Limited(r, 9) && forall c {:trigger r[c]} :: 0 <= c < |r| ==> r[c] == LengthOf(c)
  {
    seq(L_CODES, c requires 0 <= c < L_CODES => LengthOf(c))
  }

  /** How many of the first `n` lengths are not the right ones. */
  function Wrong(lens: seq<nat>, n: nat): nat
    requires n <= |lens|
  {
    if n == 0 then 0 else Wrong(lens, n - 1) + if lens[n - 1] != LengthOf(n - 1) then 1 else 0
  }

  lemma {:induction false} NoneWrong(lens: seq<nat>, n: nat, c: nat)
    requires c < n <= |lens| && Wrong(lens, n) == 0
    ensures lens[c] == LengthOf(c)
  {
    if c < n - 1 {
      NoneWrong(lens, n - 1, c);
    }
  }

  lemma {:induction false} CostsMore(f: seq<int>, lens: seq<nat>, n: nat)
    requires TextTable(f) && |lens| == |f| && Limited(lens, MAX_BITS) && n <= |f|
    requires forall c :: 0 <= c < |f| ==> (lens[c] > 0 <==> Alive(f, c))
    ensures 128 * Cost(f, lens, n) + 3 * KraftOf(lens, n, MAX_BITS)
         >= 128 * Cost(f, Best(), n) + 3 * KraftOf(Best(), n, MAX_BITS) + Wrong(lens, n)
  {
    hide Share, LengthOf, Pow2, Best;
    if n != 0 {
      var c := n - 1;
      CostsMore(f, lens, c);
      LengthsInUse(c);
      var s, l, best := f[c], lens[c], LengthOf(c);
      assert s == Share(best) && Best()[c] == best;
      if s > 0 {
        assert Alive(f, c);
        Tangent(l, best);
        assert 128 * (s * l) + 3 * Pow2(MAX_BITS - l)
            >= 128 * (s * best) + 3 * Pow2(MAX_BITS - best) + if l != best then 1 else 0;
      } else {
        assert !Alive(f, c);
        assert s * l == 0 && s * best == 0;
      }
    }
  }

  lemma LengthsInUse(c: nat)
    ensures LengthOf(c) in {0, 2, 4, 7, 8, 9} && (LengthOf(c) > 0 <==> Share(LengthOf(c)) > 0)
  {
  }

  lemma {:induction false} BestKraft(f: seq<int>, n: nat)
    requires TextTable(f) && n <= |f|
    ensures KraftOf(Best(), n, MAX_BITS) == 64 * TotalOf(f, n)
  {
    hide Share, LengthOf, Pow2;
    if n != 0 {
      BestKraft(f, n - 1);
      LengthsInUse(n - 1);
      Shares();
      LargeShares();
    }
  }

  lemma TwoAreEnough(f: seq<int>, a: nat, b: nat)
    requires |f| >= 3 && a < b < |f| && f[a] != 0 && f[b] != 0
    ensures AtLeastTwo(f) == f
  {
    assert a in Used(f, |f|) && b in Used(f, |f|);
    TwoMembers(Used(f, |f|), a, b);
  }

  lemma NoneForced(f: seq<int>)
    requires |f| >= 3 && forall c :: 0 <= c < |f| ==> f[c] == 0
    ensures AtLeastTwo(f) == f[0 := 1][1 := 1]
  {
    assert Used(f, |f|) == {};
    assert MaxUsed(f, |f|) == -1;
    ForcedIsNew(f, 0);
    var g := f[0 := 1];
    assert MaxUsed(g, |f|) == 0;
  }

  lemma {:induction false} KraftOfTwo(lens: seq<nat>, n: nat)
    requires 2 <= n <= |lens| && Limited(lens, MAX_BITS) && forall c :: 0 <= c < |lens| ==> (lens[c] > 0 <==> c < 2)
    ensures KraftOf(lens, n, MAX_BITS) == Pow2(MAX_BITS - lens[0]) + Pow2(MAX_BITS - lens[1])
  {
    if n > 2 {
      KraftOfTwo(lens, n - 1);
    } else {
      assert KraftOf(lens, 1, MAX_BITS) == KraftOf(lens, 0, MAX_BITS) + Pow2(MAX_BITS - lens[0]);
    }
  }

  lemma HalfAtMost(l: nat)
    requires 1 <= l <= MAX_BITS
    ensures 2 * Pow2(MAX_BITS - l) <= Pow2(MAX_BITS) && (2 * Pow2(MAX_BITS - l) == Pow2(MAX_BITS) <==> l == 1)
  {
    LargeShares();
  }

  // ---- the header -----------------------------------------------------------------------

  /** A run, up to where it ends or the encoder breaks it. */
  lemma {:induction false} RunThen(lens: seq<nat>, n: nat, prev: int, count: nat, k: nat)
    requires k >= 1 && n + k <= |lens| && (forall i :: n <= i < n + k ==> lens[i] == lens[n])
    requires count + k <= MaxCount(prev, lens[n])
    requires count + k == MaxCount(prev, lens[n]) || n + k == |lens| || lens[n + k] != lens[n]
    ensures Items(lens, n, prev, count) == RunItems(prev, lens[n], count + k) + Items(lens, n + k, lens[n], 0)
    decreases k
  {
    hide RunItems;
    if k > 1 {
      assert lens[n + 1] == lens[n];
      RunThen(lens, n + 1, prev, count + 1, k - 1);
    }
  }

  /** Full runs of the same length. */
  lemma {:induction false} FullRuns(lens: seq<nat>, n: nat, v: nat, k: nat)
    requires v > 0 && n + 6 * k <= |lens| && (forall i :: n <= i < n + 6 * k ==> lens[i] == v)
    ensures Items(lens, n, v, 0) == Repeat(Item(REP_3_6, 3), k) + Items(lens, n + 6 * k, v, 0)
  {
    if k > 0 {
      FullRuns(lens, n, v, k - 1);
      RunThen(lens, n + 6 * (k - 1), v, 0, 6);
      assert RunItems(v, v, 6) == [Item(REP_3_6, 3)];
      assert Repeat(Item(REP_3_6, 3), k) == Repeat(Item(REP_3_6, 3), k - 1) + [Item(REP_3_6, 3)];
    } else {
      assert Repeat(Item(REP_3_6, 3), 0) + Items(lens, n, v, 0) == Items(lens, n, v, 0);
    }
  }

  /** Where no three lengths in a row are equal, each is sent by itself. */
  lemma {:induction false} Singles(lens: seq<nat>, n: nat, prev: int)
    requires n <= |lens| && forall i :: n <= i && i + 2 < |lens| ==> lens[i] != lens[i + 1] || lens[i] != lens[i + 2]
    ensures Syms(Items(lens, n, prev, 0)) == lens[n..]
    decreases |lens| - n
  {
    if n < |lens| {
      var k := if n + 1 < |lens| && lens[n + 1] == lens[n] then 2 else 1;
      RunThen(lens, n, prev, 0, k);
      Singles(lens, n + k, lens[n]);
      SymsConcat(RunItems(prev, lens[n], k), Items(lens, n + k, lens[n], 0));
      assert Syms(RunItems(prev, lens[n], k)) == lens[n..n + k];
    }
  }

  function TextLens(): (r: seq<nat>)
    ensures |r| == 257 && forall c {:trigger r[c]} :: 0 <= c < |r| ==> r[c] == LengthOf(c)
  {
    Best()[..257]
  }

  /** The symbols that the literal lengths are sent with. */
  lemma LensSyms()
    ensures Syms(Items(TextLens(), 0, -1, 0)) == [8] + Repeat(16, 18) + [18] + TextLens()[180..]
  {
    hide Items, TextLens, Syms;
    var lens := TextLens();
    LensShape();
    RunThen(lens, 0, -1, 0, 7);
    FullRuns(lens, 7, 8, 17);
    RunThen(lens, 109, 8, 0, 71);
    Singles(lens, 180, 0);
    var a, b, c := RunItems(-1, 8, 7), Repeat(Item(REP_3_6, 3), 17), RunItems(8, 0, 71);
    var rest := Items(lens, 180, 0, 0);
    assert Items(lens, 0, -1, 0) == a + (b + (c + rest));
    SymsConcat(a, b + (c + rest));
    SymsConcat(b, c + rest);
    SymsConcat(c, rest);
    SymsKnown(a, b, c);
  }

  lemma LensShape()
    ensures forall i :: 0 <= i < 109 ==> TextLens()[i] == 8
    ensures forall i :: 109 <= i < 180 ==> TextLens()[i] == 0
    ensures TextLens()[180] == 8
    ensures forall i :: 180 <= i && i + 2 < |TextLens()| ==>
      TextLens()[i] != TextLens()[i + 1] || TextLens()[i] != TextLens()[i + 2]
  {
  }

  lemma SymsKnown(a: seq<Item>, b: seq<Item>, c: seq<Item>)
    requires a == RunItems(-1, 8, 7) && b == Repeat(Item(REP_3_6, 3), 17) && c == RunItems(8, 0, 71)
    ensures Syms(a) + (Syms(b) + Syms(c)) == [8] + Repeat(16, 18) + [18]
  {
  }

  /** How often length `v` occurs in the first `n` of the lengths that are sent by themselves. */
  function TailCount(n: nat, v: nat): int
  {
    if v == 8 then UpTo((n + 1) / 2, 21)
    else if v == 9 then UpTo(n - 42, 1) + UpTo(n - 45, 1) + UpTo((n - 47) / 2, 5) + UpTo(n - 76, 1)
    else if v == 7 then UpTo((n - 57) / 2, 5)
    else if v == 4 then UpTo((n - 67) / 2, 3)
    else if v == 2 then UpTo(n - 74, 1)
    else if v == 0 then n - TailUsed(n)
    else 0
  }

  function TailUsed(n: nat): nat
  {
    UpTo((n + 1) / 2, 21) + UpTo(n - 42, 1) + UpTo(n - 45, 1) + UpTo((n - 47) / 2, 14) + UpTo(n - 76, 1)
  }

  lemma TailUsedStep(n: nat)
    requires n < 77
    ensures TailUsed(n + 1) == TailUsed(n) + if LengthOf(180 + n) == 0 then 0 else 1
  {
  }

  lemma TailStep(n: nat, v: nat)
    requires n < 77
    ensures TailCount(n + 1, v) == TailCount(n, v) + if LengthOf(180 + n) == v then 1 else 0
  {
    hide TailUsed;
    TailUsedStep(n);
  }

  lemma {:induction false} OccursInTail(n: nat, v: nat)
    requires n <= 77
    ensures Occurs(TextLens()[180..180 + n], v) == TailCount(n, v)
  {
    hide TailCount, LengthOf, TextLens, Occurs;
    if n == 0 {
      NoTail(v);
    } else {
      OccursInTail(n - 1, v);
      TailStep(n - 1, v);
      OccursSnoc(TextLens()[180..180 + n - 1], LengthOf(180 + n - 1), v);
      assert TextLens()[180..180 + n] == TextLens()[180..180 + n - 1] + [LengthOf(180 + n - 1)];
    }
  }

  lemma NoTail(v: nat)
    ensures TailCount(0, v) == 0 && Occurs(TextLens()[180..180], v) == 0
  {
  }

  lemma {:induction false} OccursRepeat(x: nat, n: nat, c: nat)
    ensures Occurs(Repeat(x, n), c) == if x == c then n else 0
  {
    if n != 0 {
      OccursRepeat(x, n - 1, c);
      OccursSnoc(Repeat(x, n - 1), x, c);
    }
  }

  /** The code length symbols of the header of the only block. */
  function HeaderSyms(): seq<nat> { [8] + Repeat(16, 18) + [18] + TextLens()[180..] + [1, 1] }

  function HeaderTable(): (r: seq<int>)
    ensures |r| == BL_CODES
  {
    [39, 2, 1, 0, 3, 0, 0, 5, 22, 8, 0, 0, 0, 0, 0, 0, 18, 0, 1]
  }

  lemma HeaderCounts(v: nat)
    requires v < BL_CODES
    ensures Occurs(HeaderSyms(), v) == HeaderTable()[v]
  {
    hide Occurs, TextLens;
    var a, b, c, d, e := [8], Repeat(16, 18), [18], TextLens()[180..257], [1, 1];
    assert TextLens()[180..] == d;
    OccursConcat(a + b + c + d, e, v);
    OccursConcat(a + b + c, d, v);
    OccursConcat(a + b, c, v);
    OccursConcat(a, b, v);
    OccursInTail(77, v);
    OccursRepeat(16, 18, v);
    OccursOne(8, v);
    OccursOne(18, v);
    OccursConcat([1], [1], v);
    assert [1] + [1] == e;
    OccursOne(1, v);
  }

  lemma HeaderFrequency(bf: seq<int>)
    requires |bf| == BL_CODES && IsFrequency(bf, HeaderSyms())
    ensures bf == HeaderTable()
  {
    forall v | 0 <= v < BL_CODES
      ensures bf[v] == HeaderTable()[v]
    {
      HeaderCounts(v);
    }
  }

  /** The code length symbols in use, by their frequencies, and the sums of these. */
  const HEADER_ORDER: seq<nat> := [2, 18, 1, 4, 7, 9, 16, 8, 0]
  const HEADER_AMOUNTS: seq<nat> := [1, 1, 2, 3, 5, 8, 18, 22, 39]
  const HEADER_SUMS: seq<nat> := [0, 1, 2, 4, 7, 12, 20, 38, 60]

  lemma HeaderInOrder(i: nat)
    requires i < 9
    ensures HEADER_ORDER[i] < BL_CODES && HeaderTable()[HEADER_ORDER[i]] == HEADER_AMOUNTS[i]
  {
  }

  lemma HeaderDistinct(i: nat, j: nat)
    requires i < j < 9
    ensures HEADER_ORDER[i] != HEADER_ORDER[j]
  {
  }

  lemma HeaderIn(c: nat)
    requires c < BL_CODES && HeaderTable()[c] > 0
    ensures c in HEADER_ORDER
  {
    var o := HEADER_ORDER;
    assert o[0] == 2 && o[1] == 18 && o[2] == 1 && o[3] == 4 && o[4] == 7 && o[5] == 9 && o[6] == 16 && o[7] == 8;
    assert o[8] == 0;
  }

  lemma {:induction false} HeaderSums(i: nat)
    requires i < 9 && forall k :: 0 <= k < 9 ==> HEADER_ORDER[k] < BL_CODES
    ensures SumOf(HeaderTable(), HEADER_ORDER, i) == HEADER_SUMS[i]
  {
    hide HeaderTable;
    if i > 0 {
      HeaderSums(i - 1);
      HeaderInOrder(i - 1);
      assert HEADER_SUMS[i - 1] + HEADER_AMOUNTS[i - 1] == HEADER_SUMS[i];
    }
  }

  lemma {:induction false} HeaderGrows(i: nat, j: nat)
    requires 1 <= i < j < 9
    ensures HEADER_AMOUNTS[i] < HEADER_AMOUNTS[j] && HEADER_SUMS[i] < HEADER_AMOUNTS[j]
    decreases j
  {
    if i < j - 1 {
      HeaderGrows(i, j - 1);
    }
  }

  lemma HeaderSteep()
    ensures Steep(HeaderTable(), HEADER_ORDER)
  {
    hide HeaderTable, SumOf, HEADER_ORDER, HEADER_AMOUNTS, HEADER_SUMS;
    var f, order := HeaderTable(), HEADER_ORDER;
    OrderSize();
    forall i | 0 <= i < 9
      ensures order[i] < |f| && f[order[i]] > 0
    {
      HeaderInOrder(i);
    }
    forall i, j | 0 <= i < j < 9
      ensures order[i] != order[j]
    {
      HeaderDistinct(i, j);
    }
    forall c | 0 <= c < |f| && f[c] > 0
      ensures c in order
    {
      HeaderIn(c);
    }
    forall i, j | 1 <= i < j < 9
      ensures f[order[i]] < f[order[j]] && SumOf(f, order, i) < f[order[j]]
    {
      HeaderInOrder(i);
      HeaderInOrder(j);
      HeaderSums(i);
      HeaderGrows(i, j);
    }
  }

  lemma OrderSize()
    ensures |HEADER_ORDER| == |HEADER_AMOUNTS| == |HEADER_SUMS| == 9
    ensures forall i :: 0 <= i < 9 ==> HEADER_AMOUNTS[i] > 0
  {
  }

  // ---- which symbols are in use ---------------------------------------------------------

  lemma TextLargest(f: seq<int>)
    requires TextTable(f)
    ensures AtLeastTwo(f) == f && MaxUsed(f, |f|) == 256
  {
    hide Share, Forced;
    Shares();
    assert f[254] == 128 && f[256] == 1;
    TwoAreEnough(f, 254, 256);
  }

  lemma PairSyms()
    ensures Syms(Items([1, 1], 0, -1, 0)) == [1, 1]
  {
    Singles([1, 1], 0, -1);
  }

  lemma HeaderInUse()
    ensures AtLeastTwo(HeaderTable()) == HeaderTable()
  {
    TwoAreEnough(HeaderTable(), 0, 1);
  }

  // ---- the costs ------------------------------------------------------------------------

  function RarerCost(k: nat): nat { 4 * k + 4 * UpTo(k - 96, 32) }

  function HeavyCost(k: nat): nat { 2 * ((k + 1) / 2) + RarerCost(k / 2) }

  lemma HeavyCostStep(k: nat)
    requires k < 256
    ensures HeavyCost(k + 1) >= HeavyCost(k) + LengthOf(Heavy(k))
  {
    assert LengthOf(254) == 2;
    if k % 2 == 1 {
      var j := k / 2;
      assert j < 96 ==> LengthOf(Rarer(j)) == 4;
      assert LengthOf(Rarer(j)) <= 8;
    }
  }

  lemma {:induction false} TextCost(n: nat)
    requires n <= SIZE
    ensures forall i :: 0 <= i < |TextTo(n)| ==> TextTo(n)[i] < L_CODES
    ensures StreamCost(TextTo(n), Best(), EXTRA_LBITS, LITERALS + 1) <= HeavyCost((n + 1) / 2) + 9 * (n / 2)
  {
    hide Heavy, Light, LengthOf, HeavyCost, Best, StreamCost, XBits, TextTo;
    if n == 0 {
      NothingCosts();
    } else {
      TextCost(n - 1);
      var x := Byte(n - 1);
      StreamCostSnoc(TextTo(n - 1), x, Best(), EXTRA_LBITS, LITERALS + 1);
      assert TextTo(n) == TextTo(n - 1) + [x];
      NoExtra(x);
      assert Best()[x] == LengthOf(x);
      if n % 2 == 1 {
        HeavyCostStep(n / 2);
      }
    }
  }

  lemma NothingCosts()
    ensures TextTo(0) == [] && StreamCost([], Best(), EXTRA_LBITS, LITERALS + 1) == 0
  {
  }

  lemma NoExtra(x: nat)
    requires x <= LITERALS
    ensures XBits(EXTRA_LBITS, LITERALS + 1, x) == 0
  {
  }

  /** The block takes 3200 bits at most apart from its header. */
  lemma TextCosts()
    ensures forall i :: 0 <= i < |[END_OF_BLOCK] + Text()| ==> ([END_OF_BLOCK] + Text())[i] < L_CODES
    ensures StreamCost([END_OF_BLOCK] + Text(), Best(), EXTRA_LBITS, LITERALS + 1) <= 3200
  {
    hide Best, XBits, TextTo, Byte;
    TextCost(SIZE);
    StreamCostConcat([END_OF_BLOCK], Text(), Best(), EXTRA_LBITS, LITERALS + 1);
    StreamCostSnoc([], END_OF_BLOCK, Best(), EXTRA_LBITS, LITERALS + 1);
    assert [] + [END_OF_BLOCK] == [END_OF_BLOCK];
    NoExtra(END_OF_BLOCK);
    assert Best()[END_OF_BLOCK] == 9;
  }

  /** Code length symbols take 7 bits at most, and what is behind the three repeat codes. */
  lemma {:induction false} HeaderCostBound(syms: seq<nat>, est: seq<nat>)
    requires (forall i :: 0 <= i < |syms| ==> syms[i] < BL_CODES) && |est| == BL_CODES && Limited(est, MAX_BL_BITS)
    ensures StreamCost(syms, est, EXTRA_BLBITS, 0)
         <= 7 * |syms| + 2 * Occurs(syms, 16) + 3 * Occurs(syms, 17) + 7 * Occurs(syms, 18)
  {
    if syms != [] {
      HeaderCostBound(syms[..|syms| - 1], est);
      ExtraBound(syms[|syms| - 1]);
      hide XBits;
    }
  }

  lemma ExtraBound(x: nat)
    requires x < BL_CODES
    ensures XBits(EXTRA_BLBITS, 0, x) == if x == 16 then 2 else if x == 17 then 3 else if x == 18 then 7 else 0
  {
  }

  lemma HeaderCosts(est: seq<nat>)
    requires |est| == BL_CODES && Limited(est, MAX_BL_BITS)
    ensures forall i :: 0 <= i < |HeaderSyms()| ==> HeaderSyms()[i] < BL_CODES
    ensures StreamCost(HeaderSyms(), est, EXTRA_BLBITS, 0) <= 736
  {
    hide StreamCost, Occurs, LengthOf, Best;
    HeaderCostBound(HeaderSyms(), est);
    HeaderCounts(16);
    HeaderCounts(17);
    HeaderCounts(18);
    assert |HeaderSyms()| == 99;
  }
}
