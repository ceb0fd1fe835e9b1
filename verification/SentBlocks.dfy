/** What is on record about a block that was sent: its tokens, the trees that were built for
    them and what these cost, and how it was sent. */
module SentBlocks {
  import opened Options
  import opened HuffmanCode
  import opened SymbolCosts
  import opened HuffmanStart
  import opened TreeBuilder
  import opened TreeHeader
  import opened DynamicHeader
  import opened CodeTables
  import opened Tokens
  import opened BlockWriter
  import opened BlockFormat

  /** Three frequency tables, the lengths of the trees built for them, those that the cost is
      estimated with, how many code length code lengths are sent, and by how much each tree
      overflowed. */
  datatype Trees = Trees(tables: Tables, lf: seq<int>, df: seq<int>, bf: seq<int>,
                         lLens: seq<nat>, dLens: seq<nat>, bl: seq<nat>,
                         lEst: seq<nat>, dEst: seq<nat>, bEst: seq<nat>, blCodes: nat,
                         ovL: int, ovD: int, ovB: int)

  predicate Overflowed(t: Trees) { t.ovL != 0 || t.ovD != 0 || t.ovB != 0 }

  /** The lengths that are sent: those up to the largest used symbol. */
  function Trim(f: seq<int>, lens: seq<nat>): seq<nat>
    requires 3 <= |f| == |lens|
  {
    lens[..MaxUsed(AtLeastTwo(f), |f|) + 1]
  }

  predicate Sized(t: Trees)
  {
    && |t.lf| == |t.lLens| == |t.lEst| == L_CODES && |t.df| == |t.dLens| == |t.dEst| == D_CODES
    && |t.bf| == |t.bl| == |t.bEst| == BL_CODES
  }

  /** What the header of the block says about its lengths. */
  function HeaderItems(t: Trees): seq<Item>
    requires Sized(t)
  {
    Items(Trim(t.lf, t.lLens), 0, -1, 0) + Items(Trim(t.df, t.dLens), 0, -1, 0)
  }

  /** The trees that `zip_build_tree` and `zip_build_bl_tree` make for the tokens `ts`. */
  ghost predicate TreesFor(ts: seq<Token>, t: Trees)
  {
    && Sized(t) && Frequencies(t.tables, t.lf, t.df, ts)
    && TreeResult(AtLeastTwo(t.lf), t.lLens, MAX_BITS, t.ovL)
    && TreeResult(AtLeastTwo(t.df), t.dLens, MAX_BITS, t.ovD)
    && IsFrequency(t.bf, Syms(HeaderItems(t)))
    && TreeResult(AtLeastTwo(t.bf), t.bl, MAX_BL_BITS, t.ovB)
    && Estimate(t.lLens, t.lEst, MAX_BITS, t.ovL) && Estimate(t.dLens, t.dEst, MAX_BITS, t.ovD)
    && Estimate(t.bl, t.bEst, MAX_BL_BITS, t.ovB)
    && 4 <= t.blCodes <= BL_CODES && t.bl[AtRank(t.blCodes - 1)] != 0
    && (forall r :: t.blCodes <= r < BL_CODES ==> t.bl[AtRank(r)] == 0)
  }

  /** The estimate for a dynamic block, apart from the three bits at its front: what it would
      take with lengths that do not overflow. */
  predicate DynamicCostIs(ts: seq<Token>, t: Trees, n: int)
  {
    && TablesFit(t.tables) && TokensOk(ts) && Sized(t)
    && (forall i :: 0 <= i < |HeaderItems(t)| ==> HeaderItems(t)[i].sym < BL_CODES)
    && n == StreamCost(BlockSyms(t.tables, ts), t.lEst, EXTRA_LBITS, LITERALS + 1)
          + StreamCost(DistSyms(t.tables, ts), t.dEst, EXTRA_DBITS, 0)
          + 14 + 3 * t.blCodes + StreamCost(Syms(HeaderItems(t)), t.bEst, EXTRA_BLBITS, 0)
  }

  /** The bits of a static block, apart from the three at its front. */
  predicate StaticCostIs(ts: seq<Token>, tb: Tables, n: int)
  {
    TablesFit(tb) && TokensOk(ts) && Wide(tb.staticL, tb.staticD) && n == |BodyBits(tb, tb.staticL, tb.staticD, ts)|
  }

  lemma ItemsInRange(ts: seq<Token>, t: Trees)
    requires TreesFor(ts, t)
    ensures TablesFit(t.tables) && TokensOk(ts) && Sized(t)
    ensures forall i :: 0 <= i < |HeaderItems(t)| ==> HeaderItems(t)[i].sym < BL_CODES
  {
    hide TablesFit, TreeResult, Items, TokensOk;
    var items := HeaderItems(t);
    assert forall i :: 0 <= i < |items| ==> Syms(items)[i] < |t.bf|;
  }

  /** The kind of block that takes the fewest bytes, as far as the costs tell: a stored one only
      if it saves something over both others, the header of the block not counted, and a dynamic
      one only if it is shorter than a static one. */
  predicate Cheapest(kind: Kind, optLen: int, staticLen: int, storedLen: int, blockStart: int)
  {
    && (kind == Stored <==>
          blockStart >= 0 && storedLen + 4 <= (optLen + 10) / 8 && storedLen + 4 <= (staticLen + 10) / 8)
    && (kind == Static ==> (staticLen + 10) / 8 <= (optLen + 10) / 8)
    && (kind == Dynamic ==> (optLen + 10) / 8 < (staticLen + 10) / 8)
  }

  datatype Sent = Sent(kind: Kind, tokens: seq<Token>, trees: Trees, optLen: int, staticLen: int,
                       storedLen: int, blockStart: int)

  /** The kind is the cheapest by the two costs. */
  ghost predicate SentOk(s: Sent)
  {
    && TreesFor(s.tokens, s.trees)
    && StaticCostIs(s.tokens, s.trees.tables, s.staticLen)
    && DynamicCostIs(s.tokens, s.trees, s.optLen)
    && Cheapest(s.kind, s.optLen, s.staticLen, s.storedLen, s.blockStart)
  }

  // ---- the blocks of a run ------------------------------------------------------------

  /** The blocks stand for the first `end` bytes of the input, each by its tokens for what it
      would hold if it were stored, and none of them is short. */
  ghost predicate Covered(blocks: seq<Sent>, input: seq<int>, end: int)
  {
    0 <= end <= |input| &&
    if blocks == [] then end == 0
    else
      var s := blocks[|blocks| - 1];
      && SentOk(s) && TokensOk(s.tokens) && |s.tokens| >= LEAST_TOKENS && 0 <= s.storedLen <= end
      && Expand(s.tokens, input[..end - s.storedLen]) == Some(input[..end])
      && Covered(blocks[..|blocks| - 1], input, end - s.storedLen)
  }

  /** All blocks of a run: the tokens of the last one may stand for more than what is left of
      the input. */
  ghost predicate Complete(blocks: seq<Sent>, input: seq<int>, whole: seq<int>)
  {
    && blocks != []
    && var s := blocks[|blocks| - 1];
    && SentOk(s) && TokensOk(s.tokens) && 0 <= s.storedLen <= |input|
    && Expand(s.tokens, input[..|input| - s.storedLen]) == Some(whole)
    && Covered(blocks[..|blocks| - 1], input, |input| - s.storedLen)
  }

  lemma CoveredSnoc(blocks: seq<Sent>, s: Sent, input: seq<int>, b: int, end: int)
    requires Covered(blocks, input, b) && SentOk(s) && s.storedLen == end - b && b <= end <= |input|
    requires Expand(s.tokens, input[..b]) == Some(input[..end]) && |s.tokens| >= LEAST_TOKENS
    ensures Covered(blocks + [s], input, end)
  {
    hide TreesFor, DynamicCostIs, BodyBits, TokensOk, Expand;
    assert (blocks + [s])[..|blocks|] == blocks;
  }

  lemma CompleteSnoc(blocks: seq<Sent>, s: Sent, input: seq<int>, b: int, whole: seq<int>)
    requires Covered(blocks, input, b) && SentOk(s) && s.storedLen == |input| - b
    requires Expand(s.tokens, input[..b]) == Some(whole)
    ensures Complete(blocks + [s], input, whole)
  {
    hide TreesFor, DynamicCostIs, BodyBits, TokensOk, Expand;
    assert (blocks + [s])[..|blocks|] == blocks;
  }

  /** The input, its last byte a second time if `again`. */
  function WithLast(input: seq<int>, again: bool): (r: seq<int>)
    requires input != []
    ensures input <= r && |r| == |input| + if again then 1 else 0
  {
    if again then input + [input[|input| - 1]] else input
  }

  function AllTokens(blocks: seq<Sent>): seq<Token>
  {
    if blocks == [] then [] else AllTokens(blocks[..|blocks| - 1]) + blocks[|blocks| - 1].tokens
  }

  lemma {:induction false} ExpandConcat(a: seq<Token>, b: seq<Token>, out: seq<int>, o: seq<int>)
    requires TokensOk(a) && TokensOk(b) && Expand(a, out) == Some(o)
    ensures TokensOk(a + b) && Expand(a + b, out) == Expand(b, o)
  {
    if b == [] {
      assert a + b == a;
    } else {
      ExpandConcat(a, b[..|b| - 1], out, o);
      assert (a + b)[..|a + b| - 1] == a + b[..|b| - 1];
    }
  }

  lemma NoTokens()
    ensures TokensOk([]) && Expand([], []) == Some([])
  {
  }

  lemma {:induction false} CoveredTokens(blocks: seq<Sent>, input: seq<int>, end: int)
    requires Covered(blocks, input, end)
    ensures TokensOk(AllTokens(blocks)) && Expand(AllTokens(blocks), []) == Some(input[..end])
  {
    hide SentOk, TokensOk;
    if blocks == [] {
      assert TokensOk([]) && Expand([], []) == Some([]) by { NoTokens(); }
      assert input[..0] == [];
    } else {
      var s := blocks[|blocks| - 1];
      CoveredTokens(blocks[..|blocks| - 1], input, end - s.storedLen);
      ExpandConcat(AllTokens(blocks[..|blocks| - 1]), s.tokens, [], input[..end - s.storedLen]);
    }
  }

  /** All tokens of the blocks, one after the other, stand for `whole`. */
  predicate StandFor(blocks: seq<Sent>, whole: seq<int>)
  {
    TokensOk(AllTokens(blocks)) && Expand(AllTokens(blocks), []) == Some(whole)
  }

  lemma CompleteTokens(blocks: seq<Sent>, input: seq<int>, whole: seq<int>)
    requires Complete(blocks, input, whole)
    ensures StandFor(blocks, whole)
  {
    hide SentOk, TokensOk, Expand;
    var s := blocks[|blocks| - 1];
    var front := blocks[..|blocks| - 1];
    CoveredTokens(front, input, |input| - s.storedLen);
    ExpandConcat(AllTokens(front), s.tokens, [], input[..|input| - s.storedLen]);
  }

  // ---- what the decoder makes of them ---------------------------------------------------

  /** No dynamic block was sent with a tree that overflowed. */
  predicate Intact(blocks: seq<Sent>)
  {
    forall i :: 0 <= i < |blocks| ==> !(blocks[i].kind.Dynamic? && Overflowed(blocks[i].trees))
  }

  lemma IntactSnoc(blocks: seq<Sent>, s: Sent)
    ensures Intact(blocks + [s]) <==> Intact(blocks) && !(s.kind.Dynamic? && Overflowed(s.trees))
  {
    var more := blocks + [s];
    if Intact(more) {
      assert forall i :: 0 <= i < |blocks| ==> more[i] == blocks[i];
      assert more[|blocks|] == s;
    }
  }

  /** What the decoder has after the blocks, when they stand for `out`. */
  function Produced(blocks: seq<Sent>, out: seq<int>): Option<seq<int>>
  {
    if Intact(blocks) then Some(out) else None
  }
}
