/** Building the three trees of a block and sending them: the first half of
    `zip_flush_block`, with `zip_build_bl_tree` and `zip_send_all_trees`. */
module BlockTrees {
  import opened HuffmanCode
  import opened Rfc1951
  import opened BitLengths
  import opened LengthLimit
  import opened SymbolCosts
  import opened TreeHeader
  import opened TreeSender
  import opened DynamicHeader
  import opened CodeTables
  import opened Tokens
  import opened DynamicTree
  import opened BlockWriter
  import opened BlTree
  import opened DynamicBlock
  import opened SentBlocks

  lemma {:induction false} StreamCostSame(syms: seq<nat>, a: seq<int>, b: seq<int>, extra: seq<nat>, base: nat)
    requires forall i :: 0 <= i < |syms| ==> syms[i] < |a| && syms[i] < |b| && a[syms[i]] == b[syms[i]]
    ensures StreamCost(syms, a, extra, base) == StreamCost(syms, b, extra, base)
  {
    if syms != [] {
      StreamCostSame(syms[..|syms| - 1], a, b, extra, base);
    }
  }

  /** The sum of `zip_gen_bitlen` is the cost of the symbols with the lengths `len`. */
  lemma TreeCost(f: seq<int>, syms: seq<nat>, fc: seq<int>, dl: seq<int>, maxCode: int, limit: nat, overflow: int,
                 len: seq<int>, extra: seq<nat>, base: nat)
    requires IsFrequency(f, syms) && Encoded(f, fc, dl, maxCode, limit, overflow) && |f| <= |len|
    requires |dl| > |f| && limit <= MAX_BITS
    ensures forall i :: 0 <= i < |syms| ==> syms[i] < |len|
    ensures Total(f, dl[..|f|], len, extra, base, |f|) == StreamCost(syms, len, extra, base)
  {
    FrequencyNonNegative(f, syms);
    BuiltIsDecodable(f, fc, dl, maxCode, limit, overflow);
    hide TreeBuilder.TreeResult, Codeword, ValidLengths;
    forall i | 0 <= i < |syms|
      ensures dl[..|f|][syms[i]] > 0
    {
      OccursMember(syms, i);
      assert f[syms[i]] > 0;
      assert CanSend(fc, dl, syms[i]);
    }
    TotalIsStreamCost(f, syms, dl[..|f|], len, extra, base);
  }

  lemma FrequencyNonNegative(f: seq<int>, syms: seq<nat>)
    requires IsFrequency(f, syms)
    ensures NonNegative(f)
  {
  }

  /** What building one tree gives: a code for its symbols, and their cost added up. */
  lemma TreeBuilt(t: Tree, f: seq<int>, syms: seq<nat>, fc: seq<int>, dl: seq<int>, maxCode: int, overflow: int,
                  est: seq<nat>)
    requires t.Shape() && |f| == t.elems && IsFrequency(f, syms) && |dl| > |f| == |est|
    requires Encoded(f, fc, dl, maxCode, t.maxLength, overflow)
    ensures Decodable(f, fc, dl, maxCode, t.maxLength, overflow)
    ensures NonNegative(dl[..|f|]) && overflow >= 0
    ensures forall i :: 0 <= i < |syms| ==> syms[i] < |est|
    ensures Total(f, dl[..|f|], est, t.extraBits, t.extraBase, |f|) == StreamCost(syms, est, t.extraBits, t.extraBase)
    ensures t.staticDl.Some? ==> forall i :: 0 <= i < |syms| ==> syms[i] < |t.staticDl.value|
    ensures t.staticDl.Some? ==>
      Total(f, dl[..|f|], t.staticDl.value, t.extraBits, t.extraBase, |f|)
        == StreamCost(syms, t.staticDl.value, t.extraBits, t.extraBase)
  {
    FrequencyNonNegative(f, syms);
    BuiltIsDecodable(f, fc, dl, maxCode, t.maxLength, overflow);
    TreeCost(f, syms, fc, dl, maxCode, t.maxLength, overflow, est, t.extraBits, t.extraBase);
    if t.staticDl.Some? {
      TreeCost(f, syms, fc, dl, maxCode, t.maxLength, overflow, t.staticDl.value, t.extraBits, t.extraBase);
    }
  }

  /** One of the two trees for the tokens. */
  method BuildCode(b: Block, t: Tree, ghost f: seq<int>, ghost syms: seq<nat>) 
    returns (ghost ov: int, ghost est: seq<nat>)
    requires b.Shape() && (t == b.l || t == b.d) && f == t.fc[..t.elems] && IsFrequency(f, syms)
    modifies b`optLen, b`staticLen, t, t.fc, t.dl, b.heap, b.depth, b.blCount
    ensures ov >= 0 && Encoded(f, t.fc[..], t.dl[..], t.maxCode, MAX_BITS, ov)
    ensures Decodable(f, t.fc[..], t.dl[..], t.maxCode, MAX_BITS, ov)
    ensures Estimated(t.dl[..], t.elems, est, MAX_BITS, ov)
    ensures forall i :: 0 <= i < |syms| ==> syms[i] < |est| && syms[i] < |t.staticDl.value|
    ensures b.optLen == old(b.optLen) + StreamCost(syms, est, t.extraBits, t.extraBase)
    ensures b.staticLen == old(b.staticLen) + StreamCost(syms, t.staticDl.value, t.extraBits, t.extraBase)
  {
    hide TablesFit, IsFrequency, Encoded, Decodable, Total, StreamCost, XBits;
    FrequencyNonNegative(f, syms);
    var overflow;
    overflow, b.optLen, b.staticLen, est := t.Build(b.heap, b.depth, b.blCount, b.optLen, b.staticLen);
    ov := overflow;
    TreeBuilt(t, f, syms, t.fc[..], t.dl[..], t.maxCode, ov, est);
    assert t.dl[..][..t.elems] == t.dl[..t.elems];
  }

  /** The literal/length and distance trees. */
  method BuildCodes(b: Block)
    returns (ghost ovL: int, ghost ovD: int, ghost lEst: seq<nat>, ghost dEst: seq<nat>)
    requires b.Shape() && b.Counted() && TokensOk(b.tokens)
    modifies b`optLen, b`staticLen, b.l, b.l.fc, b.l.dl, b.d, b.d.fc, b.d.dl, b.heap, b.depth, b.blCount
    ensures ovL >= 0 && Encoded(old(b.l.fc[..L_CODES]), b.l.fc[..], b.l.dl[..], b.l.maxCode, MAX_BITS, ovL)
    ensures ovD >= 0 && Encoded(old(b.d.fc[..D_CODES]), b.d.fc[..], b.d.dl[..], b.d.maxCode, MAX_BITS, ovD)
    ensures Decodable(old(b.l.fc[..L_CODES]), b.l.fc[..], b.l.dl[..], b.l.maxCode, MAX_BITS, ovL)
    ensures Decodable(old(b.d.fc[..D_CODES]), b.d.fc[..], b.d.dl[..], b.d.maxCode, MAX_BITS, ovD)
    ensures Estimated(b.l.dl[..], L_CODES, lEst, MAX_BITS, ovL) && Estimated(b.d.dl[..], D_CODES, dEst, MAX_BITS, ovD)
    ensures CostIs(b.tables, b.tokens, lEst, dEst, b.optLen)
    ensures CostIs(b.tables, b.tokens, b.tables.staticL.dl, b.tables.staticD.dl, b.staticLen)
  {
    hide TablesFit, IsFrequency, Encoded, Decodable, StreamCost, Estimated, BlockSyms, DistSyms;
    Descriptors(b.tables);
    ghost var lf, df := b.l.fc[..L_CODES], b.d.fc[..D_CODES];
    ovL, lEst := BuildCode(b, b.l, lf, BlockSyms(b.tables, b.tokens));
    ghost var lfc, ldl := b.l.fc[..], b.l.dl[..];
    assert b.d.fc[..D_CODES] == df;
    ovD, dEst := BuildCode(b, b.d, df, DistSyms(b.tables, b.tokens));
    EstimatedSize(b.l.dl[..], L_CODES, lEst, MAX_BITS, ovL);
    EstimatedSize(b.d.dl[..], D_CODES, dEst, MAX_BITS, ovD);
    assert b.l.fc[..] == lfc && b.l.dl[..] == ldl;
  }

  /** What the symbols of the tokens, and the end of the block, cost with the given lengths. */
  predicate CostIs(tb: Tables, ts: seq<Token>, len: seq<int>, dlen: seq<int>, n: int)
  {
    && TablesFit(tb) && TokensOk(ts) && L_CODES <= |len| && D_CODES <= |dlen|
    && n == StreamCost(BlockSyms(tb, ts), len, EXTRA_LBITS, LITERALS + 1)
          + StreamCost(DistSyms(tb, ts), dlen, EXTRA_DBITS, 0)
  }

  /** A tree's lengths, with the guard behind them, as the header has them. */
  predicate Guarded(dl: seq<int>, maxCode: int, lens: seq<nat>)
  {
    0 <= maxCode && maxCode + 1 < |dl| && |lens| == maxCode + 1 && dl[..maxCode + 1] == lens && dl[maxCode + 1] == GUARD
  }

  /** The header for the trees as they are. */
  predicate IsHeader(h: Header, ldl: seq<int>, lMax: int, ddl: seq<int>, dMax: int, blFc: seq<int>, blDl: seq<int>,
                     maxBlIndex: int)
  {
    && Guarded(ldl, lMax, h.ll) && Guarded(ddl, dMax, h.dd)
    && BL_CODES <= |blDl| && h.bl == blDl[..BL_CODES] && h.blFc == blFc && h.blCodes == maxBlIndex + 1
  }

  /** What is known about the header once the code length tree is built. */
  ghost predicate HeaderBuilt(h: Header, ovB: int)
  {
    && Proper(h) && (ValidLengths(h.bl) <==> ovB == 0) && (ovB == 0 ==> CanonicalTable(h.blFc, h.bl, h.bl))
  }

  /** What the header takes, by the lengths `est` for its symbols. */
  predicate HeaderCostIs(h: Header, est: seq<nat>, n: int)
  {
    && (forall i :: 0 <= i < |TreeItems(h)| ==> Syms(TreeItems(h))[i] < |est|)
    && n == 14 + 3 * h.blCodes + StreamCost(Syms(TreeItems(h)), est, EXTRA_BLBITS, 0)
  }

  /** Everything about the header follows from the scan and the built code length tree. */
  lemma HeaderFollows(h: Header, f: seq<int>, dl: seq<int>, maxCode: int, ovB: int, est: seq<nat>)
    requires 257 <= |h.ll| <= L_CODES && 1 <= |h.dd| <= D_CODES && Limited(h.ll, MAX_BITS) && Limited(h.dd, MAX_BITS)
    requires |f| == BL_CODES < |dl| && h.bl == dl[..BL_CODES] && 4 <= h.blCodes <= BL_CODES
    requires IsFrequency(f, Syms(TreeItems(h))) && Encoded(f, h.blFc, dl, maxCode, MAX_BL_BITS, ovB)
    requires forall r :: h.blCodes <= r < BL_CODES ==> h.bl[AtRank(r)] == 0
    ensures HeaderBuilt(h, ovB)
    requires |est| == BL_CODES
    ensures CanSendAll(TreeItems(h), h.blFc, h.bl)
    ensures HeaderCostIs(h, est, 14 + 3 * h.blCodes + Total(f, h.bl, est, EXTRA_BLBITS, 0, BL_CODES))
  {
    hide Encoded, IsFrequency, ValidLengths, CanonicalTable, AtRank, Items, CanSendAll, Total, StreamCost;
    EncodedLengths(f, h.blFc, dl, maxCode, MAX_BL_BITS, ovB);
    CodesSuffice(h, f, dl, maxCode, ovB);
    CanSendParts(Items(h.ll, 0, -1, 0), Items(h.dd, 0, -1, 0), h.blFc, h.bl);
    BlCanonical(f, h.blFc, dl, maxCode, ovB, h.bl);
    ItemsTotal(f, TreeItems(h), h.bl, est, h.blFc);
  }

  lemma CodesSuffice(h: Header, f: seq<int>, dl: seq<int>, maxCode: int, ovB: int)
    requires Limited(h.ll, MAX_BITS) && Limited(h.dd, MAX_BITS) && |f| == BL_CODES < |dl| && h.bl == dl[..BL_CODES]
    requires IsFrequency(f, Syms(TreeItems(h))) && Encoded(f, h.blFc, dl, maxCode, MAX_BL_BITS, ovB)
    ensures CanSendAll(TreeItems(h), h.blFc, h.bl)
  {
    hide Encoded, Items, IsFrequency, Decodable, CanSendAll, AllValid;
    FrequencyNonNegative(f, Syms(TreeItems(h)));
    BuiltIsDecodable(f, h.blFc, dl, maxCode, MAX_BL_BITS, ovB);
    ItemsValid(h.ll, 0, -1, 0);
    ItemsValid(h.dd, 0, -1, 0);
    BothValid(Items(h.ll, 0, -1, 0), Items(h.dd, 0, -1, 0));
    ItemsCanSend(f, TreeItems(h), h.blFc, dl, maxCode, ovB, h.bl);
  }

  lemma BothValid(a: seq<Item>, b: seq<Item>)
    requires AllValid(a) && AllValid(b)
    ensures AllValid(a + b)
  {
  }

  /** `zip_build_bl_tree` */
  method BuildBlTree(b: Block, ghost ll: seq<nat>, ghost dd: seq<nat>)
    returns (maxBlIndex: nat, ghost h: Header, ghost ovB: int, ghost f: seq<int>, ghost est: seq<nat>)
    requires b.Shape() && (forall c :: 0 <= c < BL_CODES ==> b.bl.fc[c] == 0)
    requires 256 <= b.l.maxCode < L_CODES && b.l.dl[..b.l.maxCode + 1] == ll && Limited(ll, MAX_BITS)
    requires ll[b.l.maxCode] > 0
    requires 0 <= b.d.maxCode < D_CODES && b.d.dl[..b.d.maxCode + 1] == dd && Limited(dd, MAX_BITS)
    modifies b`optLen, b.l.dl, b.d.dl, b.bl, b.bl.fc, b.bl.dl, b.heap, b.depth, b.blCount
    ensures b.l.dl[..] == old(b.l.dl[..])[b.l.maxCode + 1 := GUARD]
    ensures b.d.dl[..] == old(b.d.dl[..])[b.d.maxCode + 1 := GUARD]
    ensures h.ll == ll && h.dd == dd && CodedHeader(h, f, maxBlIndex, ovB, b.bl.fc[..], b.bl.dl[..], b.bl.maxCode)
    ensures Estimated(b.bl.dl[..], BL_CODES, est, MAX_BL_BITS, ovB) && HeaderCostIs(h, est, b.optLen - old(b.optLen))
  {
    hide TablesFit, IsFrequency, Items, CodedHeader, HeaderCostIs, Limited, Syms, Estimated;
    ScanBoth(b, ll, dd);
    ghost var ldl, ddl := b.l.dl[..], b.d.dl[..];
    maxBlIndex, h, ovB, f, est := CodeLengths(b, ll, dd);
    assert b.l.dl[..] == ldl && b.d.dl[..] == ddl;
  }

  /** The header and the code that its lengths are sent with. */
  ghost predicate CodedHeader(h: Header, f: seq<int>, maxBlIndex: nat, ovB: int, blFc: seq<int>, blDl: seq<int>,
                              blMax: int)
  {
    && HeaderBuilt(h, ovB) && maxBlIndex < BL_CODES && h.blCodes == maxBlIndex + 1 && h.blFc == blFc
    && |blDl| >= BL_CODES && h.bl == blDl[..BL_CODES] && h.bl[AtRank(maxBlIndex)] != 0
    && |f| == BL_CODES && IsFrequency(f, Syms(TreeItems(h))) && Encoded(f, blFc, blDl, blMax, MAX_BL_BITS, ovB)
    && ovB >= 0
  }

  lemma CodedIsProper(h: Header, f: seq<int>, maxBlIndex: nat, ovB: int, blFc: seq<int>, blDl: seq<int>, blMax: int)
    requires CodedHeader(h, f, maxBlIndex, ovB, blFc, blDl, blMax)
    ensures Proper(h) && h.blCodes == maxBlIndex + 1 && h.blFc == blFc && |blDl| >= BL_CODES && h.bl == blDl[..BL_CODES]
  {
  }

  /** The tree for the lengths, and how much of it must be sent. */
  method CodeLengths(b: Block, ghost ll: seq<nat>, ghost dd: seq<nat>)
    returns (maxBlIndex: nat, ghost h: Header, ghost ovB: int, ghost f: seq<int>, ghost est: seq<nat>)
    requires b.Shape() && 257 <= |ll| <= L_CODES && 1 <= |dd| <= D_CODES && Limited(ll, MAX_BITS)
    requires Limited(dd, MAX_BITS)
    requires ll[|ll| - 1] > 0 && NonNegative(b.bl.fc[..BL_CODES])
    requires IsFrequency(b.bl.fc[..BL_CODES], Syms(Items(ll, 0, -1, 0) + Items(dd, 0, -1, 0)))
    modifies b`optLen, b.bl, b.bl.fc, b.bl.dl, b.heap, b.depth, b.blCount
    ensures h.ll == ll && h.dd == dd && CodedHeader(h, f, maxBlIndex, ovB, b.bl.fc[..], b.bl.dl[..], b.bl.maxCode)
    ensures Estimated(b.bl.dl[..], BL_CODES, est, MAX_BL_BITS, ovB) && HeaderCostIs(h, est, b.optLen - old(b.optLen))
  {
    hide TablesFit, IsFrequency, Encoded, Items, AtRank, CodedHeader, HeaderCostIs, XBits, Total, Limited, Syms,
      TreeBuilder.Estimate;
    f := b.bl.fc[..BL_CODES];
    var ov, opt, st;
    ov, opt, st, est := b.bl.Build(b.heap, b.depth, b.blCount, b.optLen, 0);
    ovB := ov;
    ghost var r;
    h, r := StartHeader(ll, dd, f, b.bl.fc[..], b.bl.dl[..], b.bl.maxCode, ovB);
    maxBlIndex := LastRank(b.bl.dl, r);
    h := EndHeader(h, f, b.bl.dl[..], b.bl.maxCode, ovB, maxBlIndex, est);
    assert b.bl.dl[..][..BL_CODES] == b.bl.dl[..BL_CODES];
    b.optLen := opt + 3 * (maxBlIndex + 1) + 5 + 5 + 4;
  }

  /** The header with all code length code lengths, of which one at least is needed. */
  lemma StartHeader(ll: seq<nat>, dd: seq<nat>, f: seq<int>, fc: seq<int>, dl: seq<int>, maxCode: int, ovB: int)
    returns (h: Header, r: nat)
    requires 257 <= |ll| <= L_CODES && 1 <= |dd| <= D_CODES && Limited(ll, MAX_BITS) && Limited(dd, MAX_BITS)
    requires ll[|ll| - 1] > 0 && |f| == BL_CODES < |dl|
    requires IsFrequency(f, Syms(Items(ll, 0, -1, 0) + Items(dd, 0, -1, 0)))
    requires Encoded(f, fc, dl, maxCode, MAX_BL_BITS, ovB)
    ensures NonNegative(dl[..BL_CODES]) && h == Header(ll, dd, fc, dl[..BL_CODES], BL_CODES) && ovB >= 0
    ensures 3 <= r < BL_CODES && dl[AtRank(r)] != 0
  {
    hide IsFrequency, Encoded, Items, AtRank, CanSendAll, HasLength;
    EncodedLengths(f, fc, dl, maxCode, MAX_BL_BITS, ovB);
    h := Header(ll, dd, fc, dl[..BL_CODES], BL_CODES);
    CodesSuffice(h, f, dl, maxCode, ovB);
    TreesHaveLength(ll, dd);
    r := LastRankFound(TreeItems(h), h.blFc, h.bl);
    assert dl[AtRank(r)] == h.bl[AtRank(r)];
  }

  lemma EndHeader(h0: Header, f: seq<int>, dl: seq<int>, maxCode: int, ovB: int, maxBlIndex: nat, est: seq<nat>)
    returns (h: Header)
    requires 257 <= |h0.ll| <= L_CODES && 1 <= |h0.dd| <= D_CODES && Limited(h0.ll, MAX_BITS)
    requires Limited(h0.dd, MAX_BITS)
    requires |f| == BL_CODES < |dl| && h0.bl == dl[..BL_CODES] && 3 <= maxBlIndex < BL_CODES && ovB >= 0
    requires IsFrequency(f, Syms(TreeItems(h0))) && Encoded(f, h0.blFc, dl, maxCode, MAX_BL_BITS, ovB)
    requires dl[AtRank(maxBlIndex)] != 0 && |est| == BL_CODES
    requires forall k :: maxBlIndex < k < BL_CODES ==> dl[AtRank(k)] == 0
    ensures h == h0.(blCodes := maxBlIndex + 1)
    ensures CodedHeader(h, f, maxBlIndex, ovB, h0.blFc, dl, maxCode) && Proper(h)
    ensures HeaderCostIs(h, est, 14 + 3 * h.blCodes + Total(f, dl[..BL_CODES], est, EXTRA_BLBITS, 0, BL_CODES))
  {
    hide IsFrequency, Encoded, Items, AtRank, CanSendAll, Proper, Total, HeaderCostIs;
    h := h0.(blCodes := maxBlIndex + 1);
    assert TreeItems(h) == TreeItems(h0);
    forall r | h.blCodes <= r < BL_CODES
      ensures h.bl[AtRank(r)] == 0
    {
      assert dl[AtRank(r)] == 0;
    }
    assert h.bl[AtRank(maxBlIndex)] == dl[AtRank(maxBlIndex)];
    HeaderFollows(h, f, dl, maxCode, ovB, est);
    HeaderIsProper(h, ovB);
  }

  lemma TreesHaveLength(ll: seq<nat>, dd: seq<nat>)
    requires Limited(ll, MAX_BITS) && ll != [] && ll[|ll| - 1] > 0
    ensures HasLength(Items(ll, 0, -1, 0) + Items(dd, 0, -1, 0))
  {
    ItemsHaveLength(ll, 0, -1, 0);
    HasLengthConcat(Items(ll, 0, -1, 0), Items(dd, 0, -1, 0));
  }

  lemma EncodedLengths(f: seq<int>, fc: seq<int>, dl: seq<int>, maxCode: int, limit: nat, overflow: int)
    requires Encoded(f, fc, dl, maxCode, limit, overflow)
    ensures |f| <= |fc| && |f| <= |dl| && NonNegative(dl[..|f|]) && overflow >= 0
  {
  }

  /** The two scans of `zip_build_bl_tree`. */
  method ScanBoth(b: Block, ghost ll: seq<nat>, ghost dd: seq<nat>)
    requires b.Shape() && (forall c :: 0 <= c < BL_CODES ==> b.bl.fc[c] == 0)
    requires 0 <= b.l.maxCode < L_CODES && b.l.dl[..b.l.maxCode + 1] == ll && Limited(ll, MAX_BITS)
    requires 0 <= b.d.maxCode < D_CODES && b.d.dl[..b.d.maxCode + 1] == dd && Limited(dd, MAX_BITS)
    modifies b.l.dl, b.d.dl, b.bl.fc
    ensures b.l.dl[..] == old(b.l.dl[..])[b.l.maxCode + 1 := GUARD]
    ensures b.d.dl[..] == old(b.d.dl[..])[b.d.maxCode + 1 := GUARD]
    ensures IsFrequency(b.bl.fc[..BL_CODES], Syms(Items(ll, 0, -1, 0) + Items(dd, 0, -1, 0)))
    ensures NonNegative(b.bl.fc[..BL_CODES])
  {
    hide TablesFit, IsFrequency, Items, XBits, Counted;
    ghost var f0, ddl0 := b.bl.fc[..], b.d.dl[..];
    ScanTree(b.l.dl, b.l.maxCode, b.bl.fc, ll);
    ghost var f1, ldl := b.bl.fc[..], b.l.dl[..];
    assert b.d.dl[..] == ddl0;
    ScanTree(b.d.dl, b.d.maxCode, b.bl.fc, dd);
    assert b.l.dl[..] == ldl;
    ScanCounts(f0, f1, b.bl.fc[..], ll, dd);
    assert b.bl.fc[..][..BL_CODES] == b.bl.fc[..BL_CODES];
  }

  // ---- all three trees --------------------------------------------------------------

  lemma TreesCarry(tb: Tables, ts: seq<Token>, lf: seq<int>, df: seq<int>, lt: CodeTable, dt: CodeTable,
                   lMax: int, dMax: int, ovL: int, ovD: int, h: Header, ovB: int)
    requires Frequencies(tb, lf, df, ts) && HeaderBuilt(h, ovB)
    requires Decodable(lf, lt.fc, lt.dl, lMax, MAX_BITS, ovL) && Decodable(df, dt.fc, dt.dl, dMax, MAX_BITS, ovD)
    requires h.ll == SentLengths(lt.dl, lMax) && h.dd == SentLengths(dt.dl, dMax)
    ensures Carries(tb, ts, lt, dt, h, ovL != 0 || ovD != 0 || ovB != 0)
  {
    TokensHaveCodes(tb, ts, lf, df, lt, dt, lMax, dMax, ovL, ovD);
    hide TablesFit, IsFrequency, CanSend, Encodes, ValidLengths, TokenCanSend, TokenEncodes, CanonicalTable, Proper,
      BlockSyms, DistSyms;
  }

  /** The lengths `len` are those of `dl` apart from the guard. */
  predicate ButForGuard(dl: seq<int>, len: seq<int>, n: nat)
  {
    n <= |dl| && n <= |len| && forall c :: 0 <= c < n && dl[c] != GUARD ==> len[c] == dl[c]
  }

  lemma CostButForGuard(syms: seq<nat>, dl: seq<int>, len: seq<int>, n: nat, extra: seq<nat>, base: nat)
    requires ButForGuard(dl, len, n)
    requires forall i :: 0 <= i < |syms| ==> syms[i] < n && dl[syms[i]] != GUARD
    ensures StreamCost(syms, dl, extra, base) == StreamCost(syms, len, extra, base)
  {
    StreamCostSame(syms, dl, len, extra, base);
  }

  lemma SymbolsUnguarded(tb: Tables, ts: seq<Token>, lt: CodeTable, dt: CodeTable)
    requires TablesFit(tb) && TokensOk(ts) && Wide(lt, dt)
    requires forall i :: 0 <= i < |ts| ==> TokenCanSend(tb, lt, dt, ts[i])
    requires CanSend(lt.fc, lt.dl, END_OF_BLOCK)
    ensures forall i :: 0 <= i < |BlockSyms(tb, ts)| ==> lt.dl[BlockSyms(tb, ts)[i]] != GUARD
  {
    hide TablesFit, LitSym;
    forall i | 0 <= i < |BlockSyms(tb, ts)|
      ensures lt.dl[BlockSyms(tb, ts)[i]] != GUARD
    {
      if i > 0 {
        assert BlockSyms(tb, ts)[i] == LitSym(tb, ts[i - 1]);
        assert TokenCanSend(tb, lt, dt, ts[i - 1]);
      }
    }
  }

  /** The cost of a body, from the costs that `zip_build_tree` has added up. */
  lemma CostOfBody(tb: Tables, ts: seq<Token>, lt: CodeTable, dt: CodeTable, len: seq<int>, dlen: seq<int>)
    requires TablesFit(tb) && TokensOk(ts) && Wide(lt, dt)
    requires forall i :: 0 <= i < |ts| ==> TokenCanSend(tb, lt, dt, ts[i])
    requires CanSend(lt.fc, lt.dl, END_OF_BLOCK)
    requires ButForGuard(lt.dl, len, L_CODES) && ButForGuard(dt.dl, dlen, D_CODES)
    ensures |BodyBits(tb, lt, dt, ts)|
         == StreamCost(BlockSyms(tb, ts), len, EXTRA_LBITS, LITERALS + 1)
          + StreamCost(DistSyms(tb, ts), dlen, EXTRA_DBITS, 0)
  {
    hide TablesFit, BodyBits, StreamCost, BlockSyms, DistSyms, CanSend, ButForGuard, TokenCanSend;
    BodyCost(tb, lt, dt, ts);
    SymbolsUnguarded(tb, ts, lt, dt);
    CostButForGuard(BlockSyms(tb, ts), lt.dl, len, L_CODES, EXTRA_LBITS, LITERALS + 1);
    DistancesUnguarded(tb, ts, lt, dt);
    CostButForGuard(DistSyms(tb, ts), dt.dl, dlen, D_CODES, EXTRA_DBITS, 0);
  }

  lemma {:induction false} DistancesUnguarded(tb: Tables, ts: seq<Token>, lt: CodeTable, dt: CodeTable)
    requires TablesFit(tb) && TokensOk(ts) && Wide(lt, dt)
    requires forall i :: 0 <= i < |ts| ==> TokenCanSend(tb, lt, dt, ts[i])
    ensures forall i :: 0 <= i < |DistSyms(tb, ts)| ==> dt.dl[DistSyms(tb, ts)[i]] != GUARD
  {
    hide TablesFit;
    if ts != [] {
      DistancesUnguarded(tb, ts[..|ts| - 1], lt, dt);
      assert TokenCanSend(tb, lt, dt, ts[|ts| - 1]);
    }
  }

  lemma StaticCost(tb: Tables, ts: seq<Token>)
    requires TablesFit(tb) && TokensOk(ts)
    ensures Wide(tb.staticL, tb.staticD)
    ensures |BodyBits(tb, tb.staticL, tb.staticD, ts)|
         == StreamCost(BlockSyms(tb, ts), tb.staticL.dl, EXTRA_LBITS, LITERALS + 1)
          + StreamCost(DistSyms(tb, ts), tb.staticD.dl, EXTRA_DBITS, 0)
  {
    StaticShape(tb, END_OF_BLOCK);
    forall i | 0 <= i < |ts|
      ensures TokenCanSend(tb, tb.staticL, tb.staticD, ts[i])
    {
      StaticTokenBound(tb, ts[i]);
    }
    BodyCost(tb, tb.staticL, tb.staticD, ts);
  }

  /** The trees that were built, as they go on record. */
  lemma TreesAre(ts: seq<Token>, t: Trees, lfc: seq<int>, ldl: seq<int>, lMax: int, dfc: seq<int>, ddl: seq<int>,
                 dMax: int,
                 h: Header, bDl: seq<int>, bMax: int)
    requires Sized(t) && Frequencies(t.tables, t.lf, t.df, ts) && h.bl == t.bl && h.blCodes == t.blCodes
    requires Estimated(ldl, L_CODES, t.lEst, MAX_BITS, t.ovL) && Estimated(ddl, D_CODES, t.dEst, MAX_BITS, t.ovD)
    requires Estimated(bDl, BL_CODES, t.bEst, MAX_BL_BITS, t.ovB)
    requires Encoded(t.lf, lfc, ldl, lMax, MAX_BITS, t.ovL) && ldl[..L_CODES] == t.lLens && 0 <= lMax < L_CODES
    requires h.ll == ldl[..lMax + 1]
    requires Encoded(t.df, dfc, ddl, dMax, MAX_BITS, t.ovD) && ddl[..D_CODES] == t.dLens && 0 <= dMax < D_CODES
    requires h.dd == ddl[..dMax + 1]
    requires IsFrequency(t.bf, Syms(TreeItems(h))) && Encoded(t.bf, h.blFc, bDl, bMax, MAX_BL_BITS, t.ovB)
    requires bDl[..BL_CODES] == t.bl
    requires Proper(h) && h.bl[AtRank(h.blCodes - 1)] != 0
    ensures TreesFor(ts, t) && HeaderItems(t) == TreeItems(h)
  {
    hide Frequencies, IsFrequency, TreeBuilder.TreeResult, Items, AtRank, CanSendAll, TreeBuilder.Sendable,
      TreeBuilder.Canonical, TreeBuilder.Estimate;
    assert Trim(t.lf, t.lLens) == h.ll && Trim(t.df, t.dLens) == h.dd;
  }

  /** The cost by the estimates on record. */
  lemma CostOnRecord(ts: seq<Token>, t: Trees, h: Header, n: int, m: int)
    requires TreesFor(ts, t) && HeaderItems(t) == TreeItems(h) && h.blCodes == t.blCodes
    requires CostIs(t.tables, ts, t.lEst, t.dEst, n) && HeaderCostIs(h, t.bEst, m)
    ensures DynamicCostIs(ts, t, n + m)
  {
    hide TreesFor, TablesFit, TokensOk, HeaderItems, TreeItems, StreamCost, BlockSyms, DistSyms, Syms;
    ItemsInRange(ts, t);
  }

  /** Without an overflow the estimates are the lengths of the code tables. */
  lemma NothingOverflowed(ts: seq<Token>, t: Trees)
    requires TreesFor(ts, t) && !Overflowed(t)
    ensures t.lEst == t.lLens && t.dEst == t.dLens && t.bEst == t.bl
  {
    hide Frequencies, IsFrequency, TreeBuilder.TreeResult, AtRank, HeaderItems, SameUse, Kraft, Limited;
  }

  /** The size of the block by the lengths of its code tables. */
  lemma BodyOnRecord(tb: Tables, ts: seq<Token>, lt: CodeTable, dt: CodeTable, h: Header, bad: bool, len: seq<int>,
                     dlen: seq<int>, n: int, m: int)
    requires Carries(tb, ts, lt, dt, h, bad) && Proper(h)
    requires ButForGuard(lt.dl, len, L_CODES) && ButForGuard(dt.dl, dlen, D_CODES) && CostIs(tb, ts, len, dlen, n)
    requires HeaderCostIs(h, h.bl, m)
    ensures n + m == |DynamicBody(tb, ts, lt, dt, h)|
  {
    hide TablesFit, BodyBits, HeaderBits, StreamCost, ButForGuard, TokenCanSend, TokenEncodes, Encodes, CanSend,
      CanonicalTable, ValidLengths, Proper, BlockSyms, DistSyms, TreeItems;
    CostOfBody(tb, ts, lt, dt, len, dlen);
    HeaderCost(h);
  }

  lemma StaticOnRecord(tb: Tables, ts: seq<Token>, n: int)
    requires CostIs(tb, ts, tb.staticL.dl, tb.staticD.dl, n)
    ensures StaticCostIs(ts, tb, n)
  {
    hide TablesFit, BodyBits, StreamCost, BlockSyms, DistSyms, TokensOk;
    StaticCost(tb, ts);
  }

  /** All that the sender needs to know about the trees and the header. */
  ghost predicate Ready(tb: Tables, ts: seq<Token>, lt: CodeTable, dt: CodeTable, h: Header, t: Trees, optLen: int,
                        staticLen: int)
  {
    && TreesFor(ts, t) && t.tables == tb && Carries(tb, ts, lt, dt, h, Overflowed(t))
    && (!Overflowed(t) ==> optLen == |DynamicBody(tb, ts, lt, dt, h)|)
    && DynamicCostIs(ts, t, optLen) && StaticCostIs(ts, tb, staticLen)
  }

  lemma TreesReady(tb: Tables, ts: seq<Token>, lt: CodeTable, dt: CodeTable, h: Header, t: Trees, optLen: int,
                   staticLen: int, n: int)
    requires TreesFor(ts, t) && t.tables == tb && Carries(tb, ts, lt, dt, h, Overflowed(t))
    requires HeaderItems(t) == TreeItems(h)
    requires Proper(h) && h.bl == t.bl && h.blCodes == t.blCodes
    requires ButForGuard(lt.dl, t.lLens, L_CODES) && ButForGuard(dt.dl, t.dLens, D_CODES)
    requires CostIs(tb, ts, t.lEst, t.dEst, n) && HeaderCostIs(h, t.bEst, optLen - n)
    requires CostIs(tb, ts, tb.staticL.dl, tb.staticD.dl, staticLen)
    ensures Ready(tb, ts, lt, dt, h, t, optLen, staticLen)
  {
    hide TreesFor, Carries, Proper, HeaderItems, TreeItems, ButForGuard, CostIs, HeaderCostIs, DynamicBody,
      DynamicCostIs, StaticCostIs;
    StaticOnRecord(tb, ts, staticLen);
    CostOnRecord(ts, t, h, n, optLen - n);
    if !Overflowed(t) {
      NothingOverflowed(ts, t);
      BodyOnRecord(tb, ts, lt, dt, h, false, t.lLens, t.dLens, n, optLen - n);
    }
  }

  /** The three calls at the start of `zip_flush_block`: the cost of a static block is exact, and
      so is that of a dynamic block unless a tree overflowed. */
  method BuildTrees(b: Block) returns (maxBlIndex: nat, ghost h: Header, ghost t: Trees)
    requires b.Shape() && b.Counted() && TokensOk(b.tokens)
    modifies b`optLen, b`staticLen, b.l, b.l.fc, b.l.dl, b.d, b.d.fc, b.d.dl, b.bl, b.bl.fc, b.bl.dl, b.heap, b.depth,
      b.blCount
    ensures Ready(b.tables, b.tokens, CodeTable(b.l.fc[..], b.l.dl[..]), CodeTable(b.d.fc[..], b.d.dl[..]), h, t,
                  b.optLen, b.staticLen)
    ensures IsHeader(h, b.l.dl[..], b.l.maxCode, b.d.dl[..], b.d.maxCode, b.bl.fc[..], b.bl.dl[..], maxBlIndex)
  {
    hide TablesFit, Encoded, Ready, CostIs, Decodable, IsHeader, Frequencies, Estimated;
    ghost var lf, df := b.l.fc[..L_CODES], b.d.fc[..D_CODES];
    ghost var ovL, ovD, lEst, dEst := BuildCodes(b);
    maxBlIndex, h, t := BuildHeader(b, lf, df, ovL, ovD, lEst, dEst);
  }

  method BuildHeader(b: Block, ghost lf: seq<int>, ghost df: seq<int>, ghost ovL: int, ghost ovD: int,
                     ghost lEst: seq<nat>, ghost dEst: seq<nat>)
    returns (maxBlIndex: nat, ghost h: Header, ghost t: Trees)
    requires b.Shape() && Frequencies(b.tables, lf, df, b.tokens) && (forall c :: 0 <= c < BL_CODES ==> b.bl.fc[c] == 0)
    requires Encoded(lf, b.l.fc[..], b.l.dl[..], b.l.maxCode, MAX_BITS, ovL)
    requires Encoded(df, b.d.fc[..], b.d.dl[..], b.d.maxCode, MAX_BITS, ovD)
    requires Decodable(lf, b.l.fc[..], b.l.dl[..], b.l.maxCode, MAX_BITS, ovL)
    requires Decodable(df, b.d.fc[..], b.d.dl[..], b.d.maxCode, MAX_BITS, ovD)
    requires Estimated(b.l.dl[..], L_CODES, lEst, MAX_BITS, ovL) && Estimated(b.d.dl[..], D_CODES, dEst, MAX_BITS, ovD)
    requires CostIs(b.tables, b.tokens, lEst, dEst, b.optLen)
    requires CostIs(b.tables, b.tokens, b.tables.staticL.dl, b.tables.staticD.dl, b.staticLen)
    modifies b`optLen, b.l.dl, b.d.dl, b.bl, b.bl.fc, b.bl.dl, b.heap, b.depth, b.blCount
    ensures Ready(b.tables, b.tokens, CodeTable(b.l.fc[..], b.l.dl[..]), CodeTable(b.d.fc[..], b.d.dl[..]), h, t,
                  b.optLen, b.staticLen)
    ensures IsHeader(h, b.l.dl[..], b.l.maxCode, b.d.dl[..], b.d.maxCode, b.bl.fc[..], b.bl.dl[..], maxBlIndex)
  {
    hide TablesFit, CodedHeader, Encoded, Ready, CostIs, Decodable, IsHeader, Frequencies, HeaderCostIs, Limited,
      Estimated;
    ghost var ldl, ddl, lfc, dfc := b.l.dl[..], b.d.dl[..], b.l.fc[..], b.d.fc[..];
    ghost var lMax, dMax := b.l.maxCode, b.d.maxCode;
    ghost var n := b.optLen;
    TreesAreSendable(b.tables, b.tokens, lf, lfc, ldl, lMax, ovL, df, dfc, ddl, dMax, ovD);
    ghost var ovB, bf, bEst;
    maxBlIndex, h, ovB, bf, bEst := BuildBlTree(b, SentLengths(ldl, lMax), SentLengths(ddl, dMax));
    CodedIsProper(h, bf, maxBlIndex, ovB, b.bl.fc[..], b.bl.dl[..], b.bl.maxCode);
    assert b.l.fc[..] == lfc && b.d.fc[..] == dfc;
    t := AllReady(b.tables, b.tokens, lf, df, bf, lfc, ldl, lMax, ovL, dfc, ddl, dMax, ovD, h, maxBlIndex,
                  b.bl.fc[..], b.bl.dl[..], b.bl.maxCode, ovB, lEst, dEst, bEst, n, b.optLen, b.staticLen);
  }

  /** What the code length tree needs to know about the other two. */
  lemma TreesAreSendable(tb: Tables, ts: seq<Token>, lf: seq<int>, lfc: seq<int>, ldl: seq<int>, lMax: int, ovL: int,
                         df: seq<int>, dfc: seq<int>, ddl: seq<int>, dMax: int, ovD: int)
    requires Frequencies(tb, lf, df, ts)
    requires Decodable(lf, lfc, ldl, lMax, MAX_BITS, ovL) && Decodable(df, dfc, ddl, dMax, MAX_BITS, ovD)
    ensures 256 <= lMax < L_CODES && lMax + 1 < |ldl| && NonNegative(ldl[..lMax + 1])
    ensures Limited(SentLengths(ldl, lMax), MAX_BITS)
    ensures ldl[lMax] > 0 && 0 <= dMax < D_CODES && dMax + 1 < |ddl| && NonNegative(ddl[..dMax + 1])
    ensures Limited(SentLengths(ddl, dMax), MAX_BITS)
  {
    EndUsed(tb, lf, df, ts);
  }

  lemma AllReady(tb: Tables, ts: seq<Token>, lf: seq<int>, df: seq<int>, bf: seq<int>,
                 lfc: seq<int>, ldl: seq<int>, lMax: int, ovL: int, dfc: seq<int>, ddl: seq<int>, dMax: int, ovD: int,
                 h: Header, maxBlIndex: nat, bFc: seq<int>, bDl: seq<int>, bMax: int, ovB: int,
                 lEst: seq<nat>, dEst: seq<nat>, bEst: seq<nat>, n: int, optLen: int, staticLen: int)
    returns (t: Trees)
    requires Frequencies(tb, lf, df, ts) && CodedHeader(h, bf, maxBlIndex, ovB, bFc, bDl, bMax) && Proper(h)
    requires Encoded(lf, lfc, ldl, lMax, MAX_BITS, ovL) && Decodable(lf, lfc, ldl, lMax, MAX_BITS, ovL)
    requires Encoded(df, dfc, ddl, dMax, MAX_BITS, ovD) && Decodable(df, dfc, ddl, dMax, MAX_BITS, ovD)
    requires 0 <= lMax < L_CODES && lMax + 1 < |ldl| && h.ll == ldl[..lMax + 1]
    requires 0 <= dMax < D_CODES && dMax + 1 < |ddl| && h.dd == ddl[..dMax + 1]
    requires Estimated(ldl, L_CODES, lEst, MAX_BITS, ovL) && Estimated(ddl, D_CODES, dEst, MAX_BITS, ovD)
    requires Estimated(bDl, BL_CODES, bEst, MAX_BL_BITS, ovB)
    requires CostIs(tb, ts, lEst, dEst, n) && HeaderCostIs(h, bEst, optLen - n)
    requires CostIs(tb, ts, tb.staticL.dl, tb.staticD.dl, staticLen)
    ensures Ready(tb, ts, CodeTable(lfc, ldl[lMax + 1 := GUARD]), CodeTable(dfc, ddl[dMax + 1 := GUARD]), h, t,
                  optLen, staticLen)
    ensures IsHeader(h, ldl[lMax + 1 := GUARD], lMax, ddl[dMax + 1 := GUARD], dMax, bFc, bDl, maxBlIndex)
  {
    hide TablesFit, IsFrequency, Proper, Carries, HeaderBuilt, Encoded, TreesFor, Ready, CostIs, TreeItems, AtRank,
      Decodable, HeaderItems, HeaderCostIs, Estimated;
    var lt, dt := CodeTable(lfc, ldl[lMax + 1 := GUARD]), CodeTable(dfc, ddl[dMax + 1 := GUARD]);
    EncodedLengths(lf, lfc, ldl, lMax, MAX_BITS, ovL);
    EncodedLengths(df, dfc, ddl, dMax, MAX_BITS, ovD);
    EstimatedSize(ldl, L_CODES, lEst, MAX_BITS, ovL);
    EstimatedSize(ddl, D_CODES, dEst, MAX_BITS, ovD);
    EstimatedSize(bDl, BL_CODES, bEst, MAX_BL_BITS, ovB);
    t := Trees(tb, lf, df, bf, ldl[..L_CODES], ddl[..D_CODES], h.bl, lEst, dEst, bEst, h.blCodes, ovL, ovD, ovB);
    TreesAre(ts, t, lfc, ldl, lMax, dfc, ddl, dMax, h, bDl, bMax);
    GuardedIsDecodable(lf, lfc, ldl, lMax, MAX_BITS, ovL);
    GuardedIsDecodable(df, dfc, ddl, dMax, MAX_BITS, ovD);
    TreesCarry(tb, ts, lf, df, lt, dt, lMax, dMax, ovL, ovD, h, ovB);
    TreesReady(tb, ts, lt, dt, h, t, optLen, staticLen, n);
  }

  lemma EstimatedSize(dl: seq<int>, n: nat, est: seq<nat>, limit: nat, overflow: int)
    requires Estimated(dl, n, est, limit, overflow)
    ensures |est| == n
  {
  }

  lemma HeaderIsProper(h: Header, ovB: int)
    requires HeaderBuilt(h, ovB)
    ensures Proper(h)
  {
  }
}
