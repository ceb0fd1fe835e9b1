/** Where the limit on code lengths bites: an input that does not come back. The code lengths of
    its literal tree are such that the code length tree of its only block must overflow, and the
    block is sent all the same. */
module TreeLimits {
  import opened Options
  import opened HuffmanCode
  import opened Rfc1951
  import opened HuffmanForest
  import opened HuffmanLengths
  import opened HuffmanOptimal
  import opened HuffmanDepth
  import opened SymbolCosts
  import opened HuffmanStart
  import opened TreeBuilder
  import opened TreeHeader
  import opened DynamicHeader
  import opened CodeTables
  import opened Tokens
  import opened BlockWriter
  import opened SentBlocks
  import opened SmallBlocks
  import opened SteepText
  import opened TextCode

  // ---- tables that force an overflow ----------------------------------------------------

  /** Whatever happens among equals, a tree for a steep table overflows. */
  lemma SteepResult(f: seq<int>, lens: seq<nat>, limit: nat, overflow: int, order: seq<nat>)
    requires TreeResult(f, lens, limit, overflow) && Steep(f, order) && |order| >= limit + 2
    ensures overflow > 0
  {
    hide Steep, LeastCost, TotalOf, Fib;
    var w: seq<int>, par: seq<int>, kids: seq<(int, int)>, dep: seq<nat> :|
      Tree(f, par, kids) && Weighted(f, w, par, kids) && Greedy(f, w, par, kids) && AreDepths(par, dep)
      && lens == Lengths(f, dep, limit) && overflow == Overflow(f, par, dep, limit);
    SteepOverflows(f, w, par, kids, dep, order, limit);
  }

  // ---- the lengths of the literal tree --------------------------------------------------

  /** Any optimal code for the table has the right lengths. */
  lemma TextLengths(f: seq<int>, lens: seq<nat>)
    requires TextTable(f) && TotalOf(f, |f|) == 512 && TreeResult(f, lens, MAX_BITS, 0)
    ensures lens == Best()
  {
    hide FromMerging, Fib, TotalOf, KraftOf, Cost, Share, LengthOf, Wrong;
    CostsMore(f, lens, |f|);
    BestKraft(f, |f|);
    LargeShares();
    var other, limit := Best(), MAX_BITS;
    forall i | 0 <= i < |f|
      ensures other[i] > 0 <==> Alive(f, i)
    {
      LengthsInUse(i);
    }
    assert Limited(other, limit);
    assert Cost(f, lens, |f|) <= Cost(f, other, |f|);
    forall c | 0 <= c < |lens|
      ensures lens[c] == Best()[c]
    {
      NoneWrong(lens, |lens|, c);
    }
  }

  // ---- the lengths of the distance tree -------------------------------------------------

  /** Without distances, two codes of one bit. */
  lemma NoDistances(f: seq<int>, lens: seq<nat>)
    requires |f| == D_CODES && (forall c :: 0 <= c < |f| ==> f[c] == 0)
    requires TreeResult(AtLeastTwo(f), lens, MAX_BITS, 0)
    ensures Trim(f, lens) == [1, 1]
  {
    hide FromMerging, Fib, TotalOf, LeastCost, Forced;
    NoneForced(f);
    var g := f[0 := 1][1 := 1];
    assert g[1] == 1 && MaxUsed(g, |g|) == 1;
    forall c | 0 <= c < |f|
      ensures lens[c] > 0 <==> c < 2
    {
      assert lens[c] > 0 <==> Alive(g, c);
    }
    KraftOfTwo(lens, |lens|);
    HalfAtMost(lens[0]);
    HalfAtMost(lens[1]);
    assert Trim(f, lens) == lens[..2];
  }

  // ---- the tokens of the block ----------------------------------------------------------

  lemma {:induction false} OnlyLiterals(tb: Tables, ts: seq<Token>, o: seq<int>)
    requires TablesFit(tb) && TokensOk(ts) && Matches(ts) == 0 && Expand(ts, []) == Some(o)
    ensures LitSyms(tb, ts) == o && DistSyms(tb, ts) == []
  {
    hide TablesFit;
    if ts != [] {
      OnlyLiterals(tb, ts[..|ts| - 1], Expand(ts[..|ts| - 1], []).value);
    }
  }

  /** Three bytes that do not repeat leave nothing to match. */
  lemma TextTokens(tb: Tables, ts: seq<Token>)
    requires TablesFit(tb) && TokensOk(ts) && Expand(ts, []) == Some(Text())
    ensures Matches(ts) == 0 && BlockSyms(tb, ts) == [END_OF_BLOCK] + Text() && DistSyms(tb, ts) == []
  {
    hide TablesFit, TokensOk, Text, Expand;
    MatchesBound(ts, [], Text(), Text());
    NoRepeats(|Text()|);
    OnlyLiterals(tb, ts, Text());
  }

  // ---- the trees of the block -----------------------------------------------------------

  lemma TextTrim(f: seq<int>, lens: seq<nat>)
    requires TextTable(f) && lens == Best()
    ensures Trim(f, lens) == TextLens()
  {
    hide TextTable, Best;
    TextLargest(f);
  }

  lemma NoneOf(f: seq<int>)
    requires IsFrequency(f, [])
    ensures forall c :: 0 <= c < |f| ==> f[c] == 0
  {
  }

  /** The literal and the distance tree do not overflow, and their lengths are known. */
  lemma TextTrees(ts: seq<Token>, t: Trees)
    requires TreesFor(ts, t) && Expand(ts, []) == Some(Text())
    ensures t.lLens == Best() && t.lEst == Best()
    ensures HeaderItems(t) == Items(TextLens(), 0, -1, 0) + Items([1, 1], 0, -1, 0)
  {
    hide TablesFit, TokensOk, Text, Expand, TreeBuilder.TreeResult, Items, AtRank, TextTable, Best, Forced, Kraft,
      Fib, TextLens, LengthOf;
    TextTokens(t.tables, ts);
    FibValues();
    LightTable(t.lf, BlockSyms(t.tables, ts), t.lLens, MAX_BITS, t.ovL);
    LightTable(t.df, DistSyms(t.tables, ts), t.dLens, MAX_BITS, t.ovD);
    TextTableOf(t.lf, BlockSyms(t.tables, ts));
    TextLargest(t.lf);
    TotalOfFrequency(t.lf, BlockSyms(t.tables, ts));
    TextLengths(t.lf, t.lLens);
    TextTrim(t.lf, t.lLens);
    NoneOf(t.df);
    NoDistances(t.df, t.dLens);
  }

  /** The code length tree overflows. */
  lemma TextOverflows(ts: seq<Token>, t: Trees)
    requires TreesFor(ts, t) && Expand(ts, []) == Some(Text())
    ensures Syms(HeaderItems(t)) == HeaderSyms() && t.ovB > 0
  {
    hide TablesFit, TokensOk, Text, Expand, TreeBuilder.TreeResult, Items, AtRank, Forced, HeaderTable, Steep,
      TextLens, HEADER_ORDER, Frequencies, Syms;
    TextTrees(ts, t);
    LensSyms();
    PairSyms();
    SymsConcat(Items(TextLens(), 0, -1, 0), Items([1, 1], 0, -1, 0));
    HeaderFrequency(t.bf);
    HeaderInUse();
    HeaderSteep();
    OrderSize();
    SteepResult(t.bf, t.bl, MAX_BL_BITS, t.ovB, HEADER_ORDER);
  }

  // ---- the costs of the block -----------------------------------------------------------

  lemma LiteralIsLong(tb: Tables, t: Token)
    requires TablesFit(tb) && TokenOk(t) && t.Literal?
    ensures Wide(tb.staticL, tb.staticD) && |TokenBits(tb, tb.staticL, tb.staticD, t)| >= 8
    ensures |CodeBits(tb.staticL.fc, tb.staticL.dl, END_OF_BLOCK)| == 7
  {
    StaticShape(tb, t.byte);
    StaticShape(tb, END_OF_BLOCK);
    hide TablesFit;
  }

  lemma {:induction false} LiteralsAreLong(tb: Tables, ts: seq<Token>)
    requires TablesFit(tb) && TokensOk(ts) && Wide(tb.staticL, tb.staticD) && Matches(ts) == 0
    ensures |TokensBits(tb, tb.staticL, tb.staticD, ts)| >= 8 * |ts|
  {
    hide TablesFit, TokenBits, Wide;
    if ts != [] {
      LiteralsAreLong(tb, ts[..|ts| - 1]);
      LiteralIsLong(tb, ts[|ts| - 1]);
    }
  }

  /** The block is sent as a dynamic one. */
  lemma TextBlock(s: Sent)
    requires SentOk(s) && TokensOk(s.tokens) && Expand(s.tokens, []) == Some(Text()) && s.storedLen == SIZE
    ensures s.kind.Dynamic? && s.trees.ovB > 0
  {
    hide TablesFit, TokensOk, Text, Expand, TreesFor, StreamCost, TokensBits, CodeBits, Best, HeaderSyms;
    var t, ts := s.trees, s.tokens;
    TextTokens(t.tables, ts);
    TextOverflows(ts, t);
    TextTrees(ts, t);
    TextCosts();
    EstimateLimited(ts, t);
    HeaderCosts(t.bEst);
    NoDistanceCost(t.dEst);
    LiteralsAreLong(t.tables, ts);
    LiteralIsLong(t.tables, Literal(0));
    assert |ts| == SIZE;
  }

  lemma EstimateLimited(ts: seq<Token>, t: Trees)
    requires TreesFor(ts, t)
    ensures |t.bEst| == BL_CODES && Limited(t.bEst, MAX_BL_BITS) && t.blCodes <= BL_CODES
  {
  }

  lemma NoDistanceCost(len: seq<int>)
    ensures StreamCost([], len, EXTRA_DBITS, 0) == 0
  {
  }

  /** However the compressor gets there, a run for the text does not come back. */
  lemma NeverIntact(blocks: seq<Sent>)
    requires Complete(blocks, Text(), Text())
    ensures !Intact(blocks)
  {
    hide SentOk, TokensOk, Text, Expand;
    var front, s := blocks[..|blocks| - 1], blocks[|blocks| - 1];
    ShortRun(front, Text(), SIZE - s.storedLen);
    assert Text()[..0] == [];
    TextBlock(s);
    assert blocks[|blocks| - 1] == s;
  }

  /** An input of less than 4096 bytes is one block. */
  lemma ShortRun(blocks: seq<Sent>, input: seq<int>, end: int)
    requires SentBlocks.Covered(blocks, input, end) && |input| < LEAST_TOKENS
    ensures blocks == [] && end == 0
  {
    hide SentOk, TokensOk, Expand;
    if blocks != [] {
      var s := blocks[|blocks| - 1];
      SmallBlocks.ExpandGrows(s.tokens, input[..end - s.storedLen], input[..end]);
    }
  }
}
