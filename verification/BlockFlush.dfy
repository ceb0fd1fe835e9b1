/** Ending a block (`zip_flush_block`): the choice between a stored, a static and a dynamic
    block, and what the decoder makes of the one that is sent. */
module BlockFlush {
  import opened Bits
  import opened Options
  import opened HuffmanCode
  import opened Rfc1951
  import opened BitWriter
  import opened TreeHeader
  import opened TreeSender
  import opened DynamicHeader
  import opened CodeTables
  import opened Tokens
  import opened BlockBuffer
  import opened BlockWriter
  import opened BlockFormat
  import opened DynamicBlock
  import opened BlockTrees
  import opened SentBlocks

  // ---- stored blocks ----------------------------------------------------------------

  /** The branch of `zip_flush_block` that stores the block's bytes as they are. */
  method SendStored(sink: BitSink, eof: bool, window: array<int>, blockStart: nat, storedLen: nat)
    requires sink.Ready() && window !in sink.Repr() && blockStart + storedLen <= window.Length
    requires Bytes(window[blockStart..blockStart + storedLen]) && storedLen < 0x10000
    modifies sink.Repr()
    ensures sink.Written()
    ensures sink.bits == old(sink.bits) + BlockHeader(Stored, eof)
                       + StoredBody(|old(sink.bits)| + 3, window[blockStart..blockStart + storedLen])
  {
    hide BitSink.Valid, Padding, BitsOf, BytesToBits, Bytes, StoredBody;
    ghost var bits0, data, n := sink.bits, window[blockStart..blockStart + storedLen], |sink.bits| + 3;
    HeaderFits(Stored, eof);
    sink.SendBits(2 * KindCode(Stored) + Flag(eof), 3);
    sink.WindUp();
    sink.PutShortAligned(storedLen);
    var complement: int := -1 - storedLen;
    sink.PutShortAligned(complement % 0x10000);
    assert complement % 0x10000 == 0xffff - storedLen;
    StoredParts(bits0, BlockHeader(Stored, eof), n, data);
    CopyBytes(sink, window, blockStart, storedLen);
  }

  lemma HeaderFits(k: Kind, eof: bool)
    ensures 2 * KindCode(k) + Flag(eof) < Pow2(3)
  {
    assert Pow2(3) == 8;
  }

  lemma StoredParts(bits: seq<bool>, header: seq<bool>, n: nat, data: seq<int>)
    requires Bytes(data) && |data| < 0x10000
    ensures bits + header + Padding(n) + BitsOf(|data|, 16) + BitsOf(0xffff - |data|, 16) + BytesToBits(data)
         == bits + header + StoredBody(n, data)
  {
    hide Padding, BitsOf, BytesToBits;
  }

  /** The copy loop of a stored block. */
  method CopyBytes(sink: BitSink, window: array<int>, from: nat, n: nat)
    requires sink.Ready() && sink.biValid == 0 && window !in sink.Repr() && from + n <= window.Length
    requires Bytes(window[from..from + n])
    modifies sink.Repr()
    ensures sink.Written() && sink.bits == old(sink.bits) + BytesToBits(window[from..from + n])
  {
    hide BitSink.Valid, BitsOf, BytesToBits;
    ghost var bits0, data := sink.bits, window[from..from + n];
    var i := 0;
    NoBytes();
    while i < n
      invariant i <= n && sink.Written() && sink.biValid == 0 && window[from..from + n] == data
      invariant sink.bits == bits0 + BytesToBits(data[..i])
    {
      CopyStep(data, i);
      assert window[from + i] == window[from..from + n][i];
      sink.PutByteAligned(window[from + i]);
      i := i + 1;
    }
    assert data[..i] == data;
  }

  lemma NoBytes()
    ensures BytesToBits([]) == []
  {
  }

  lemma CopyStep(data: seq<int>, i: nat)
    requires Bytes(data) && i < |data|
    ensures BytesToBits(data[..i + 1]) == BytesToBits(data[..i]) + BitsOf(data[i], 8)
  {
    BytesToBitsOne(data[i]);
    BytesToBitsConcat(data[..i], [data[i]]);
    assert data[..i + 1] == data[..i] + [data[i]];
  }

  // ---- compressed blocks ------------------------------------------------------------

  /** `zip_send_all_trees` */
  method SendAllTrees(b: Block, sink: BitSink, lCodes: nat, dCodes: nat, blCodes: nat, ghost h: Header)
    requires sink.Ready() && sink.Repr() !! b.Repr() && Proper(h)
    requires lCodes == b.l.maxCode + 1 && dCodes == b.d.maxCode + 1 && blCodes >= 1
    requires IsHeader(h, b.l.dl[..], b.l.maxCode, b.d.dl[..], b.d.maxCode, b.bl.fc[..], b.bl.dl[..], blCodes - 1)
    modifies sink.Repr()
    ensures sink.Written() && sink.bits == old(sink.bits) + HeaderBits(h)
  {
    hide BitSink.Valid, Proper, CanSendAll, Items, CountBits, RankBits, ItemsBits, HeaderBits;
    HeaderParts(h, sink.bits);
    var fc, bl := b.bl.fc[..], b.bl.dl[..BL_CODES];
    SendCounts(sink, lCodes, dCodes, blCodes, h);
    SendRanks(sink, b.bl.dl, blCodes, h.bl);
    assert b.bl.fc[..] == fc && b.bl.dl[..BL_CODES] == bl;
    SendTree(sink, b.l.dl, lCodes - 1, fc, bl, h.ll);
    SendTree(sink, b.d.dl, dCodes - 1, fc, bl, h.dd);
  }

  /** What is sent for a header, one part after the other. */
  lemma HeaderParts(h: Header, bits: seq<bool>)
    requires Proper(h)
    ensures 257 <= |h.ll| <= 286 && 1 <= |h.dd| <= 30 && Limited(h.ll, MAX_BITS) && Limited(h.dd, MAX_BITS)
    ensures |h.bl| == BL_CODES <= |h.blFc| && Limited(h.bl, 7) && 4 <= h.blCodes <= BL_CODES
    ensures CanSendAll(Items(h.ll, 0, -1, 0), h.blFc, h.bl) && CanSendAll(Items(h.dd, 0, -1, 0), h.blFc, h.bl)
    ensures bits + CountBits(h) + RankBits(h.bl, 0, h.blCodes) + ItemsBits(Items(h.ll, 0, -1, 0), h.blFc, h.bl)
          + ItemsBits(Items(h.dd, 0, -1, 0), h.blFc, h.bl) == bits + HeaderBits(h)
  {
    hide CanSendAll, Items, AtRank, RankBits, ItemsBits, CountBits;
  }

  /** The three counts at the front of the header. */
  method SendCounts(sink: BitSink, lCodes: nat, dCodes: nat, blCodes: nat, ghost h: Header)
    requires sink.Ready() && Proper(h) && lCodes == |h.ll| && dCodes == |h.dd| && blCodes == h.blCodes
    modifies sink.Repr()
    ensures sink.Written() && sink.bits == old(sink.bits) + CountBits(h)
  {
    hide BitSink.Valid, CanSendAll, Items, AtRank, BitsOf;
    ghost var bits0 := sink.bits;
    CountsFit();
    sink.SendBits(lCodes - 257, 5);
    sink.SendBits(dCodes - 1, 5);
    sink.SendBits(blCodes - 4, 4);
    assert sink.bits == bits0 + CountBits(h);
  }

  lemma CountsFit()
    ensures Pow2(5) == 32 && Pow2(4) == 16 && Pow2(3) == 8
  {
  }

  method SendRanks(sink: BitSink, dl: array<int>, blCodes: nat, ghost bl: seq<nat>)
    requires sink.Ready() && dl !in sink.Repr() && blCodes <= BL_CODES == |bl| && dl.Length >= BL_CODES
    requires dl[..BL_CODES] == bl && Limited(bl, 7)
    modifies sink.Repr()
    ensures sink.Written() && sink.bits == old(sink.bits) + RankBits(bl, 0, blCodes)
  {
    hide BitSink.Valid, AtRank;
    ghost var bits0 := sink.bits;
    var rank := 0;
    while rank < blCodes
      invariant rank <= blCodes && sink.Written() && dl[..BL_CODES] == bl
      invariant sink.bits == bits0 + RankBits(bl, 0, rank)
    {
      RankBitsSnoc(bl, 0, rank);
      assert dl[AtRank(rank)] == dl[..BL_CODES][AtRank(rank)] == bl[AtRank(rank)];
      assert Pow2(3) == 8;
      sink.SendBits(dl[AtRank(rank)], 3);
      rank := rank + 1;
    }
  }

  /** What the decoder has after the block, given what it had before, when the tokens stand
      for `viaTokens` and the window holds `viaStored`. */
  function After(decoded: Option<seq<int>>, kind: Kind, bad: bool, viaTokens: seq<int>,
                 viaStored: seq<int>): Option<seq<int>>
  {
    if decoded.None? || (kind.Dynamic? && bad) then None
    else Some(decoded.value + if kind.Stored? then viaStored else viaTokens)
  }

  lemma {:induction false} StaticBound(tb: Tables, ts: seq<Token>)
    requires TablesFit(tb) && TokensOk(ts)
    ensures Wide(tb.staticL, tb.staticD)
    ensures |TokensBits(tb, tb.staticL, tb.staticD, ts)| <= 31 * |ts|
  {
    StaticShape(tb, END_OF_BLOCK);
    if ts != [] {
      StaticTokenBound(tb, ts[|ts| - 1]);
      StaticBound(tb, ts[..|ts| - 1]);
    }
    hide TablesFit, TokenBits;
  }

  /** The bits of a static block are too few for a stored block to be chosen that its
      16-bit length cannot express. */
  lemma StoredFits(tb: Tables, ts: seq<Token>, staticLen: int, storedLen: int)
    requires TablesFit(tb) && TokensOk(ts) && |ts| < LIT_BUFSIZE && Wide(tb.staticL, tb.staticD)
    requires staticLen == |BodyBits(tb, tb.staticL, tb.staticD, ts)|
    requires storedLen + 4 <= (staticLen + 3 + 7) / 8
    ensures storedLen < 0x10000
  {
    StaticBound(tb, ts);
    StaticShape(tb, END_OF_BLOCK);
    hide TablesFit, TokensBits;
  }

  /** The trees are built, and the flags of the last group are saved. */
  ghost predicate ReadyToSend(b: Block, h: Header, t: Trees, maxBlIndex: nat)
    reads b, b.l, b.l.fc, b.l.dl, b.d, b.d.fc, b.d.dl, b.bl.fc, b.bl.dl, b.lBuf, b.dBuf, b.flagBuf
  {
    && b.Shape() && b.Saved() && |b.tokens| < LIT_BUFSIZE
    && Ready(b.tables, b.tokens, CodeTable(b.l.fc[..], b.l.dl[..]), CodeTable(b.d.fc[..], b.d.dl[..]), h, t,
             b.optLen, b.staticLen)
    && IsHeader(h, b.l.dl[..], b.l.maxCode, b.d.dl[..], b.d.maxCode, b.bl.fc[..], b.bl.dl[..], maxBlIndex)
  }

  /** The window holds the bytes that the block is for. */
  predicate BlockBytes(window: seq<int>, blockStart: int, strStart: nat, viaStored: seq<int>)
  {
    && blockStart <= strStart <= |window|
    && (blockStart >= 0 ==> window[blockStart..strStart] == viaStored && Bytes(viaStored))
  }

  /** The last part of `zip_flush_block`: the block in its cheapest form. Every bit of a
      compressed block is accounted for in `optLen` or `staticLen`. */
  method SendBlock(b: Block, sink: BitSink, eof: bool, window: array<int>, blockStart: int, strStart: nat,
                   maxBlIndex: nat,
                   ghost h: Header, ghost t: Trees, ghost decoded: Option<seq<int>>, ghost out: seq<int>,
                   ghost viaTokens: seq<int>, ghost viaStored: seq<int>)
    returns (kind: Kind)
    requires ReadyToSend(b, h, t, maxBlIndex)
    requires sink.Ready() && sink.Repr() !! b.Repr() && window !in sink.Repr()
    requires BlockBytes(window[..], blockStart, strStart, viaStored)
    requires Expand(b.tokens, out) == Some(out + viaTokens)
    requires Reads(sink.bits, decoded) && (decoded.Some? ==> decoded.value == out)
    modifies sink.Repr()
    ensures sink.Written()
    ensures kind == Stored <==> blockStart >= 0 && strStart - blockStart + 4 <= (b.optLen + 10) / 8
                                && strStart - blockStart + 4 <= (b.staticLen + 10) / 8
    ensures kind == Static ==> (b.staticLen + 10) / 8 <= (b.optLen + 10) / 8
    ensures kind == Dynamic ==> (b.optLen + 10) / 8 < (b.staticLen + 10) / 8
    ensures |sink.bits| > |old(sink.bits)|
    ensures kind == Stored ==> |sink.bits| < |old(sink.bits)| + 3 + 40 + 8 * (strStart - blockStart)
    ensures kind == Static ==> |sink.bits| == |old(sink.bits)| + 3 + b.staticLen
    ensures kind == Dynamic && !Overflowed(t) ==> |sink.bits| == |old(sink.bits)| + 3 + b.optLen
    ensures var r := After(decoded, kind, Overflowed(t), viaTokens, viaStored);
      if eof then Final(sink.bits, r) else Reads(sink.bits, r)
  {
    hide BitSink.Valid, Ready, IsHeader, Block.Shape, Block.Saved, Reads, Final, Expand, After, Overflowed;
    var storedLen := strStart - blockStart;
    var optLenB := (b.optLen + 3 + 7) / 8;
    var staticLenB := (b.staticLen + 3 + 7) / 8;
    if staticLenB <= optLenB {
      optLenB := staticLenB;
    }
    if storedLen + 4 <= optLenB && blockStart >= 0 {
      kind := Stored;
      StoreBlock(b, sink, eof, window, blockStart, storedLen, h, t, maxBlIndex, decoded, out, viaTokens, viaStored);
    } else if staticLenB == optLenB {
      kind := Static;
      SendStatic(b, sink, eof, h, t, maxBlIndex, decoded, out, viaTokens, viaStored);
    } else {
      kind := Dynamic;
      SendDynamic(b, sink, eof, maxBlIndex, h, t, decoded, out, viaTokens, viaStored);
    }
  }

  method StoreBlock(b: Block, sink: BitSink, eof: bool, window: array<int>, blockStart: nat, storedLen: nat,
                    ghost h: Header, ghost t: Trees, ghost maxBlIndex: nat, ghost decoded: Option<seq<int>>,
                    ghost out: seq<int>,
                    ghost viaTokens: seq<int>, ghost viaStored: seq<int>)
    requires ReadyToSend(b, h, t, maxBlIndex) && storedLen + 4 <= (b.staticLen + 3 + 7) / 8
    requires sink.Ready() && window !in sink.Repr()
    requires BlockBytes(window[..], blockStart, blockStart + storedLen, viaStored)
    requires Reads(sink.bits, decoded) && (decoded.Some? ==> decoded.value == out)
    modifies sink.Repr()
    ensures sink.Written() && |sink.bits| > |old(sink.bits)|
    ensures |sink.bits| < |old(sink.bits)| + 3 + 40 + 8 * storedLen
    ensures var r := After(decoded, Stored, Overflowed(t), viaTokens, viaStored);
      if eof then Final(sink.bits, r) else Reads(sink.bits, r)
  {
    hide BitSink.Valid, IsHeader, Block.Shape, Block.Saved, Reads, Final, BodyReads, Ready, StoredBody, BlockHeader;
    ghost var bits0 := sink.bits;
    StoredFitsBlock(b, h, t, maxBlIndex, storedLen);
    assert window[..][blockStart..blockStart + storedLen] == window[blockStart..blockStart + storedLen];
    SendStored(sink, eof, window, blockStart, storedLen);
    if decoded.Some? {
      StoredReads(|bits0| + 3, viaStored, out);
    }
    HeaderSize(Stored, eof);
    NextBlock(bits0, decoded, Stored, eof, StoredBody(|bits0| + 3, viaStored),
      After(decoded, Stored, Overflowed(t), viaTokens, viaStored));
  }

  lemma HeaderSize(k: Kind, eof: bool)
    ensures |BlockHeader(k, eof)| == 3
  {
  }

  lemma StoredFitsBlock(b: Block, h: Header, t: Trees, maxBlIndex: nat, storedLen: int)
    requires ReadyToSend(b, h, t, maxBlIndex) && storedLen + 4 <= (b.staticLen + 3 + 7) / 8
    ensures storedLen < 0x10000
  {
    hide TablesFit, Carries, BodyBits, TreesFor, DynamicCostIs, Block.Shape, Block.Saved, IsHeader, TokensOk;
    StoredFits(b.tables, b.tokens, b.staticLen, storedLen);
  }

  /** What a sender of a compressed block needs of `Ready`. */
  lemma ReadyParts(tb: Tables, ts: seq<Token>, lt: CodeTable, dt: CodeTable, h: Header, t: Trees, optLen: int,
                   staticLen: int)
    requires Ready(tb, ts, lt, dt, h, t, optLen, staticLen)
    ensures TablesFit(tb) && TokensOk(ts) && Wide(lt, dt) && Wide(tb.staticL, tb.staticD) && Proper(h)
    ensures Carries(tb, ts, lt, dt, h, Overflowed(t)) && CanSend(lt.fc, lt.dl, END_OF_BLOCK)
    ensures forall i :: 0 <= i < |ts| ==> TokenCanSend(tb, lt, dt, ts[i])
    ensures staticLen == |BodyBits(tb, tb.staticL, tb.staticD, ts)|
    ensures !Overflowed(t) ==> optLen == |DynamicBody(tb, ts, lt, dt, h)|
  {
    hide TablesFit, TokensOk, TreesFor, DynamicCostIs, Proper, TokenCanSend, CanSend, TokenEncodes, Encodes, BodyBits,
      DynamicBody;
  }

  method SendStatic(b: Block, sink: BitSink, eof: bool, ghost h: Header, ghost t: Trees, ghost maxBlIndex: nat,
                    ghost decoded: Option<seq<int>>, ghost out: seq<int>,
                    ghost viaTokens: seq<int>, ghost viaStored: seq<int>)
    requires ReadyToSend(b, h, t, maxBlIndex) && sink.Ready() && sink.Repr() !! b.Repr()
    requires Expand(b.tokens, out) == Some(out + viaTokens)
    requires Reads(sink.bits, decoded) && (decoded.Some? ==> decoded.value == out)
    modifies sink.Repr()
    ensures sink.Written() && |sink.bits| == |old(sink.bits)| + 3 + b.staticLen && b.staticLen >= 0
    ensures var r := After(decoded, Static, Overflowed(t), viaTokens, viaStored);
      if eof then Final(sink.bits, r) else Reads(sink.bits, r)
  {
    hide BitSink.Valid, TablesFit, TokensOk, BodyBits, Ready, IsHeader, Recorded, Expand, Reads, Final, BodyReads,
      BlockHeader,
      Carries, Proper, TokenCanSend, CanSend, DynamicBody, BitsOf;
    ghost var bits0 := sink.bits;
    ReadyParts(b.tables, b.tokens, CodeTable(b.l.fc[..], b.l.dl[..]), CodeTable(b.d.fc[..], b.d.dl[..]), h, t,
      b.optLen, b.staticLen);
    StaticCanSend(b.tables, b.tokens);
    SendKind(sink, Static, eof);
    b.CompressBlock(sink, b.tables.staticL, b.tables.staticD);
    StaticReads(b.tables, b.tokens, |bits0| + 3, out, out + viaTokens);
    HeaderSize(Static, eof);
    NextBlock(bits0, decoded, Static, eof, BodyBits(b.tables, b.tables.staticL, b.tables.staticD, b.tokens),
      After(decoded, Static, Overflowed(t), viaTokens, viaStored));
  }

  /** The three bits at the front of a block. */
  method SendKind(sink: BitSink, k: Kind, eof: bool)
    requires sink.Ready()
    modifies sink.Repr()
    ensures sink.Written() && sink.bits == old(sink.bits) + BlockHeader(k, eof)
  {
    hide BitSink.Valid, BitsOf;
    HeaderFits(k, eof);
    sink.SendBits(2 * KindCode(k) + Flag(eof), 3);
  }

  lemma StaticCanSend(tb: Tables, ts: seq<Token>)
    requires TablesFit(tb) && TokensOk(ts)
    ensures CanSend(tb.staticL.fc, tb.staticL.dl, END_OF_BLOCK) && Wide(tb.staticL, tb.staticD)
    ensures forall i :: 0 <= i < |ts| ==> TokenCanSend(tb, tb.staticL, tb.staticD, ts[i])
  {
    StaticShape(tb, END_OF_BLOCK);
    forall i | 0 <= i < |ts|
      ensures TokenCanSend(tb, tb.staticL, tb.staticD, ts[i])
    {
      StaticTokenBound(tb, ts[i]);
    }
  }

  method SendDynamic(b: Block, sink: BitSink, eof: bool, maxBlIndex: nat, ghost h: Header, ghost t: Trees,
                     ghost decoded: Option<seq<int>>, ghost out: seq<int>,
                     ghost viaTokens: seq<int>, ghost viaStored: seq<int>)
    requires ReadyToSend(b, h, t, maxBlIndex) && sink.Ready() && sink.Repr() !! b.Repr()
    requires Expand(b.tokens, out) == Some(out + viaTokens)
    requires Reads(sink.bits, decoded) && (decoded.Some? ==> decoded.value == out)
    modifies sink.Repr()
    ensures sink.Written() && |sink.bits| > |old(sink.bits)|
    ensures !Overflowed(t) ==> |sink.bits| == |old(sink.bits)| + 3 + b.optLen
    ensures var r := After(decoded, Dynamic, Overflowed(t), viaTokens, viaStored);
      if eof then Final(sink.bits, r) else Reads(sink.bits, r)
  {
    hide BitSink.Valid, TablesFit, TokensOk, BodyBits, Ready, IsHeader, Expand, Reads, Final, BodyReads, BlockHeader,
      Carries, Proper, TokenCanSend, CanSend, HeaderBits, DynamicBody;
    ghost var bits0, lt, dt := sink.bits, CodeTable(b.l.fc[..], b.l.dl[..]), CodeTable(b.d.fc[..], b.d.dl[..]);
    ReadyParts(b.tables, b.tokens, lt, dt, h, t, b.optLen, b.staticLen);
    SendKind(sink, Dynamic, eof);
    SendBody(b, sink, maxBlIndex, h, Overflowed(t));
    DynamicReads(b.tables, b.tokens, lt, dt, h, Overflowed(t), |bits0| + 3, out, out + viaTokens);
    HeaderSize(Dynamic, eof);
    NextBlock(bits0, decoded, Dynamic, eof, DynamicBody(b.tables, b.tokens, lt, dt, h),
      After(decoded, Dynamic, Overflowed(t), viaTokens, viaStored));
  }

  /** The trees and the tokens of a dynamic block. */
  method SendBody(b: Block, sink: BitSink, maxBlIndex: nat, ghost h: Header, ghost bad: bool)
    requires b.Shape() && b.Saved() && sink.Ready() && sink.Repr() !! b.Repr()
    requires Carries(b.tables, b.tokens, CodeTable(b.l.fc[..], b.l.dl[..]), CodeTable(b.d.fc[..], b.d.dl[..]), h, bad)
    requires IsHeader(h, b.l.dl[..], b.l.maxCode, b.d.dl[..], b.d.maxCode, b.bl.fc[..], b.bl.dl[..], maxBlIndex)
    modifies sink.Repr()
    ensures sink.Written()
    ensures sink.bits == old(sink.bits) + DynamicBody(b.tables, b.tokens, CodeTable(b.l.fc[..], b.l.dl[..]),
                                                      CodeTable(b.d.fc[..], b.d.dl[..]), h)
  {
    hide BitSink.Valid, TablesFit, BodyBits, HeaderBits, Proper, Recorded, CanSend, TokenCanSend, TokenEncodes, Encodes,
      ValidLengths, CanonicalTable;
    ghost var bits0 := sink.bits;
    var lt, dt := CodeTable(b.l.fc[..], b.l.dl[..]), CodeTable(b.d.fc[..], b.d.dl[..]);
    SendAllTrees(b, sink, b.l.maxCode + 1, b.d.maxCode + 1, maxBlIndex + 1, h);
    assert CodeTable(b.l.fc[..], b.l.dl[..]) == lt && CodeTable(b.d.fc[..], b.d.dl[..]) == dt;
    b.CompressBlock(sink, lt, dt);
    assert sink.bits == bits0 + DynamicBody(b.tables, b.tokens, lt, dt, h);
  }

  /** The flags of the last group are saved, full or not. */
  method SaveFlags(b: Block)
    requires b.Shape() && b.Stored()
    modifies b.flagBuf
    ensures b.Saved()
  {
    hide TablesFit, Recorded;
    ghost var lb, db, fb := b.lBuf[..b.lastLit], b.dBuf[..b.lastDist], b.flagBuf[..b.lastFlags];
    FlagsSaved(lb, db, fb, b.tokens, b.flags);
    b.flagBuf[b.lastFlags] := b.flags;
    assert b.lBuf[..b.lastLit] == lb && b.dBuf[..b.lastDist] == db;
    assert b.flagBuf[..b.lastFlags + 1] == fb + [b.flags];
  }

  /** `zip_flush_block`: the decoder goes on with what the block stands for, unless a dynamic
      block is sent with a tree that overflowed. */
  method FlushBlock(b: Block, sink: BitSink, eof: bool, window: array<int>, blockStart: int, strStart: nat,
                    ghost decoded: Option<seq<int>>, ghost out: seq<int>,
                    ghost viaTokens: seq<int>, ghost viaStored: seq<int>)
    returns (ghost s: Sent)
    requires b.Valid() && sink.Ready() && sink.Repr() !! b.Repr() && window !in sink.Repr() && window !in b.Repr()
    requires BlockBytes(window[..], blockStart, strStart, viaStored)
    requires Expand(b.tokens, out) == Some(out + viaTokens)
    requires Reads(sink.bits, decoded) && (decoded.Some? ==> decoded.value == out)
    modifies b.Repr(), sink.Repr()
    ensures b.Valid() && b.tokens == [] && b.lastLit == 0 && sink.Written()
    ensures |sink.bits| > |old(sink.bits)|
    ensures SentOk(s) && s.tokens == old(b.tokens) && s.storedLen == strStart - blockStart && s.blockStart == blockStart
    ensures s.kind == Stored <==> blockStart >= 0 && strStart - blockStart + 4 <= (s.optLen + 10) / 8
                                  && strStart - blockStart + 4 <= (s.staticLen + 10) / 8
    ensures s.kind == Static ==> (s.staticLen + 10) / 8 <= (s.optLen + 10) / 8
    ensures s.kind == Dynamic ==> (s.optLen + 10) / 8 < (s.staticLen + 10) / 8
    ensures var r := After(decoded, s.kind, Overflowed(s.trees), viaTokens, viaStored);
      if eof then InflateBits(sink.bits, []) == r && sink.biValid == 0 else Reads(sink.bits, r)
  {
    hide BitSink.Valid, Ready, IsHeader, Reads, Final, Expand, InflateBits, SentOk, Block.Shape, Block.Stored,
      Block.Counted, Block.Saved, After, Overflowed, BitSink.Ready, ReadyToSend;
    ghost var win := window[..];
    var maxBlIndex;
    ghost var header, t;
    maxBlIndex, header, t := Prepare(b);
    assert window[..] == win;
    var kind := SendBlock(b, sink, eof, window, blockStart, strStart, maxBlIndex, header, t, decoded, out,
      viaTokens, viaStored);
    s := OnRecord(b, header, t, maxBlIndex, kind, strStart - blockStart, blockStart);
    b.InitBlock();
    EndBlock(sink, eof, After(decoded, kind, Overflowed(t), viaTokens, viaStored));
  }

  /** The first part of `zip_flush_block`. */
  method Prepare(b: Block) returns (maxBlIndex: nat, ghost h: Header, ghost t: Trees)
    requires b.Valid()
    modifies b.Repr()
    ensures ReadyToSend(b, h, t, maxBlIndex) && b.tokens == old(b.tokens)
  {
    hide Ready, IsHeader, Recorded, TablesFit, Frequencies;
    SaveFlags(b);
    ghost var fb := b.flagBuf[..];
    maxBlIndex, h, t := BuildTrees(b);
    assert b.flagBuf[..] == fb;
    assert b.flagBuf[..b.lastFlags + 1] == fb[..b.lastFlags + 1];
  }

  lemma OnRecord(b: Block, h: Header, t: Trees, maxBlIndex: nat, kind: Kind, storedLen: int,
                 blockStart: int) returns (s: Sent)
    requires ReadyToSend(b, h, t, maxBlIndex) && Cheapest(kind, b.optLen, b.staticLen, storedLen, blockStart)
    ensures SentOk(s) && s == Sent(kind, b.tokens, t, b.optLen, b.staticLen, storedLen, blockStart)
  {
    hide TreesFor, StaticCostIs, DynamicCostIs, Carries, IsHeader, Cheapest, Block.Shape, Block.Saved, DynamicBody;
    s := Sent(kind, b.tokens, t, b.optLen, b.staticLen, storedLen, blockStart);
  }

  /** The end of the file is padded to a whole byte. */
  method EndBlock(sink: BitSink, eof: bool, ghost r: Option<seq<int>>)
    requires sink.Ready() && if eof then Final(sink.bits, r) else Reads(sink.bits, r)
    modifies sink.Repr()
    ensures sink.Written() && |sink.bits| >= |old(sink.bits)|
    ensures if eof then InflateBits(sink.bits, []) == r && sink.biValid == 0 else Reads(sink.bits, r)
  {
    hide BitSink.Valid, InflateBits, Final, Reads;
    if eof {
      FinalPadded(sink.bits, r);
      sink.WindUp();
    }
  }

  lemma FinalPadded(bits: seq<bool>, r: Option<seq<int>>)
    requires Final(bits, r)
    ensures InflateBits(bits + Padding(|bits|), []) == r
  {
  }
}
