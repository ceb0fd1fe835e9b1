/** A block's three trees, built together, and what the decoder makes of a block that is
    sent with them. */
module DynamicBlock {
  import opened Options
  import opened HuffmanCode
  import opened Rfc1951
  import opened SymbolCosts
  import opened TreeHeader
  import opened TreeSender
  import opened DynamicHeader
  import opened CodeTables
  import opened Tokens
  import opened DynamicTree
  import opened BlockWriter
  import opened BlockFormat

  /** The trees can carry the tokens; a decoder that has read the header can read the tokens
      unless one of the three trees overflowed, and then it rejects the header. */
  ghost predicate Carries(tb: Tables, ts: seq<Token>, lt: CodeTable, dt: CodeTable, h: Header, bad: bool)
  {
    && TablesFit(tb) && TokensOk(ts) && Wide(lt, dt) && Proper(h)
    && (forall i :: 0 <= i < |ts| ==> TokenCanSend(tb, lt, dt, ts[i])) && CanSend(lt.fc, lt.dl, END_OF_BLOCK)
    && (ValidLengths(h.bl) ==> CanonicalTable(h.blFc, h.bl, h.bl))
    && (bad <==> !(ValidLengths(h.bl) && ValidLengths(h.ll) && ValidLengths(h.dd)))
    && (!bad ==>
          && (forall i :: 0 <= i < |ts| ==> TokenEncodes(tb, lt, dt, h.ll, h.dd, ts[i]))
          && Encodes(lt, h.ll, END_OF_BLOCK))
  }

  /** The body of a dynamic block. */
  function DynamicBody(tb: Tables, ts: seq<Token>, lt: CodeTable, dt: CodeTable, h: Header): seq<bool>
    requires TablesFit(tb) && TokensOk(ts) && Wide(lt, dt) && Proper(h)
  {
    HeaderBits(h) + BodyBits(tb, lt, dt, ts)
  }

  /** A dynamic block decodes to its tokens' meaning exactly when no tree overflowed. */
  lemma DynamicReads(tb: Tables, ts: seq<Token>, lt: CodeTable, dt: CodeTable, h: Header, bad: bool, n: nat,
                     out: seq<int>, o: seq<int>)
    requires Carries(tb, ts, lt, dt, h, bad) && Expand(ts, out) == Some(o)
    ensures BodyReads(Dynamic, n, DynamicBody(tb, ts, lt, dt, h), out, if bad then None else Some(o))
  {
    hide TablesFit, Expand, BodyBits, HeaderBits, Proper, ValidLengths, CanonicalTable, TokenEncodes, TokenCanSend,
      ReadBody, ReadTrees, CanSend, Encodes;
    var a, b := HeaderBits(h), BodyBits(tb, lt, dt, ts);
    forall rest: seq<bool>
      ensures ReadBlock(2, DynamicBody(tb, ts, lt, dt, h) + rest, out) == if bad then None else Some((o, rest))
    {
      assert DynamicBody(tb, ts, lt, dt, h) + rest == a + (b + rest);
      ReadHeader(h, b + rest);
      if !bad {
        ReadBodyBits(tb, lt, dt, h.ll, h.dd, ts, rest, out, o);
      }
    }
  }

  /** A static block decodes to its tokens' meaning. */
  lemma StaticReads(tb: Tables, ts: seq<Token>, n: nat, out: seq<int>, o: seq<int>)
    requires TablesFit(tb) && TokensOk(ts) && Expand(ts, out) == Some(o)
    ensures Wide(tb.staticL, tb.staticD)
    ensures BodyReads(Static, n, BodyBits(tb, tb.staticL, tb.staticD, ts), out, Some(o))
  {
    StaticShape(tb, END_OF_BLOCK);
    FixedLiteralsValid();
    FixedDistancesValid();
    forall i | 0 <= i < |ts|
      ensures TokenEncodes(tb, tb.staticL, tb.staticD, FixedLiteralLengths(), FixedDistanceLengths(), ts[i])
    {
      StaticShape(tb, LitSym(tb, ts[i]));
      if ts[i].Match? {
        StaticShape(tb, DistSym(tb, ts[i]));
      }
    }
    hide TablesFit, Expand, BodyBits, ValidLengths, TokenEncodes, ReadBody, Encodes, FixedLiteralLengths,
      FixedDistanceLengths;
    forall rest: seq<bool>
      ensures ReadBlock(1, BodyBits(tb, tb.staticL, tb.staticD, ts) + rest, out) == Some((o, rest))
    {
      ReadBodyBits(tb, tb.staticL, tb.staticD, FixedLiteralLengths(), FixedDistanceLengths(), ts, rest, out, o);
    }
  }

  // ---- the tokens of the block have codes -------------------------------------------

  lemma TokenUsed(tb: Tables, lf: seq<int>, df: seq<int>, ts: seq<Token>, i: nat)
    requires Frequencies(tb, lf, df, ts) && i < |ts|
    ensures lf[LitSym(tb, ts[i])] > 0 && lf[END_OF_BLOCK] > 0
    ensures ts[i].Match? ==> df[DistSym(tb, ts[i])] > 0
  {
    hide TablesFit;
    EndUsed(tb, lf, df, ts);
    assert BlockSyms(tb, ts)[i + 1] == LitSym(tb, ts[i]);
    OccursMember(BlockSyms(tb, ts), i + 1);
    if ts[i].Match? {
      DistSymIn(tb, ts, i);
      var k :| 0 <= k < |DistSyms(tb, ts)| && DistSyms(tb, ts)[k] == DistSym(tb, ts[i]);
      OccursMember(DistSyms(tb, ts), k);
    }
  }

  lemma EndUsed(tb: Tables, lf: seq<int>, df: seq<int>, ts: seq<Token>)
    requires Frequencies(tb, lf, df, ts)
    ensures lf[END_OF_BLOCK] > 0
  {
    assert BlockSyms(tb, ts)[0] == END_OF_BLOCK;
    OccursMember(BlockSyms(tb, ts), 0);
  }

  /** Every token of the block can be sent, and means to the decoder what it should. */
  lemma TokensHaveCodes(tb: Tables, ts: seq<Token>, lf: seq<int>, df: seq<int>, lt: CodeTable, dt: CodeTable,
                        lMax: int, dMax: int, ovL: int, ovD: int)
    requires Frequencies(tb, lf, df, ts)
    requires Decodable(lf, lt.fc, lt.dl, lMax, MAX_BITS, ovL) && Decodable(df, dt.fc, dt.dl, dMax, MAX_BITS, ovD)
    ensures Wide(lt, dt) && CanSend(lt.fc, lt.dl, END_OF_BLOCK) && END_OF_BLOCK <= lMax
    ensures forall i :: 0 <= i < |ts| ==> TokenCanSend(tb, lt, dt, ts[i])
    ensures ovL == 0 && ovD == 0 ==> Encodes(lt, SentLengths(lt.dl, lMax), END_OF_BLOCK)
    ensures ovL == 0 && ovD == 0 ==>
      forall i :: 0 <= i < |ts| ==> TokenEncodes(tb, lt, dt, SentLengths(lt.dl, lMax), SentLengths(dt.dl, dMax), ts[i])
  {
    hide TablesFit, CanSend, Encodes, IsFrequency, ValidLengths;
    EndUsed(tb, lf, df, ts);
    assert CodeTable(lt.fc, lt.dl) == lt && CodeTable(dt.fc, dt.dl) == dt;
    forall i | 0 <= i < |ts|
      ensures TokenCanSend(tb, lt, dt, ts[i])
      ensures ovL == 0 && ovD == 0 ==>
        TokenEncodes(tb, lt, dt, SentLengths(lt.dl, lMax), SentLengths(dt.dl, dMax), ts[i])
    {
      TokenUsed(tb, lf, df, ts, i);
    }
  }
}
