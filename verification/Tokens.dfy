/** The elements of a compressed block: what they mean, how they are written, and what the
    decoder of RFC 1951 reads back (sections 3.2.3 and 3.2.5). */
module Tokens {
  import opened Bits
  import opened Options
  import opened HuffmanCode
  import opened Rfc1951
  import opened BitLengths
  import opened SymbolCosts
  import opened TreeHeader
  import opened TreeSender
  import opened CodeTables

  datatype Token = Literal(byte: nat) | Match(length: nat, distance: nat)

  predicate TokenOk(t: Token)
  {
    match t
    case Literal(b) => b < 256
    case Match(len, dist) => 3 <= len <= 258 && 1 <= dist <= 32768
  }

  predicate TokensOk(ts: seq<Token>) { forall i :: 0 <= i < |ts| ==> TokenOk(ts[i]) }

  /** The output after one more token. */
  function Apply(t: Token, out: seq<int>): Option<seq<int>>
    requires TokenOk(t)
  {
    match t
    case Literal(b) => Some(out + [b])
    case Match(len, dist) => if dist > |out| then None else Some(CopyMatch(out, len, dist))
  }

  /** What the tokens stand for, after the output `out`. */
  function Expand(ts: seq<Token>, out: seq<int>): Option<seq<int>>
    requires TokensOk(ts)
  {
    if ts == [] then Some(out)
    else
      var o :- Expand(ts[..|ts| - 1], out);
      Apply(ts[|ts| - 1], o)
  }

  lemma ExpandSnoc(ts: seq<Token>, t: Token, out: seq<int>, o: seq<int>)
    requires TokensOk(ts) && TokenOk(t) && Expand(ts, out) == Some(o)
    ensures TokensOk(ts + [t]) && Expand(ts + [t], out) == Apply(t, o)
  {
    assert (ts + [t])[..|ts|] == ts;
  }

  // ---- symbols ----------------------------------------------------------------------

  function LengthCode(tb: Tables, len: nat): (c: nat)
    requires TablesFit(tb) && 3 <= len <= 258
    ensures LengthFits(c, len - 3)
  {
    tb.lengthCode[len - 3]
  }

  function DistanceCode(tb: Tables, dist: nat): (c: nat)
    requires TablesFit(tb) && 1 <= dist <= 32768
    ensures DistFits(c, dist - 1)
  {
    DistCoded(tb.distCode, dist - 1);
    DCode(tb.distCode, dist - 1)
  }

  /** The literal/length symbol of a token. */
  function LitSym(tb: Tables, t: Token): (s: nat)
    requires TablesFit(tb) && TokenOk(t)
    ensures s < L_CODES && s != END_OF_BLOCK
  {
    match t
    case Literal(b) => b
    case Match(len, _) => LengthCode(tb, len) + LITERALS + 1
  }

  function LitSyms(tb: Tables, ts: seq<Token>): (r: seq<nat>)
    requires TablesFit(tb) && TokensOk(ts)
    ensures |r| == |ts| && forall i :: 0 <= i < |r| ==> r[i] == LitSym(tb, ts[i])
  {
    if ts == [] then [] else LitSyms(tb, ts[..|ts| - 1]) + [LitSym(tb, ts[|ts| - 1])]
  }

  function DistSym(tb: Tables, t: Token): (s: nat)
    requires TablesFit(tb) && TokenOk(t) && t.Match?
    ensures s < D_CODES
  {
    DistanceCode(tb, t.distance)
  }

  function DistSyms(tb: Tables, ts: seq<Token>): (r: seq<nat>)
    requires TablesFit(tb) && TokensOk(ts)
    ensures |r| <= |ts| && forall i :: 0 <= i < |r| ==> r[i] < D_CODES
  {
    if ts == [] then []
    else
      var r := DistSyms(tb, ts[..|ts| - 1]);
      var t := ts[|ts| - 1];
      if t.Match? then r + [DistSym(tb, t)] else r
  }

  lemma {:induction false} DistSymIn(tb: Tables, ts: seq<Token>, i: nat)
    requires TablesFit(tb) && TokensOk(ts) && i < |ts| && ts[i].Match?
    ensures DistSym(tb, ts[i]) in DistSyms(tb, ts)
  {
    if i < |ts| - 1 {
      DistSymIn(tb, ts[..|ts| - 1], i);
    }
  }

  // ---- bits -------------------------------------------------------------------------

  /** The extra bits of a length. */
  function LengthExtra(tb: Tables, len: nat): (r: seq<bool>)
    requires TablesFit(tb) && 3 <= len <= 258
    ensures |r| == LengthBits(LengthCode(tb, len))
  {
    var c := LengthCode(tb, len);
    if LengthBits(c) == 0 then [] else BitsOf(len - 3 - LengthStart(c), LengthBits(c))
  }

  function DistanceExtra(tb: Tables, dist: nat): (r: seq<bool>)
    requires TablesFit(tb) && 1 <= dist <= 32768
    ensures |r| == DistBits(DistanceCode(tb, dist))
  {
    var c := DistanceCode(tb, dist);
    BitsOf(dist - 1 - DistStart(c), DistBits(c))
  }

  /** The tables are large enough for every symbol. */
  predicate Wide(l: CodeTable, d: CodeTable)
  {
    L_CODES <= |l.fc| && L_CODES <= |l.dl| && D_CODES <= |d.fc| && D_CODES <= |d.dl|
  }

  function TokenBits(tb: Tables, l: CodeTable, d: CodeTable, t: Token): seq<bool>
    requires TablesFit(tb) && Wide(l, d) && TokenOk(t)
  {
    if t.Literal? then CodeBits(l.fc, l.dl, LitSym(tb, t))
    else
      CodeBits(l.fc, l.dl, LitSym(tb, t)) + LengthExtra(tb, t.length)
      + CodeBits(d.fc, d.dl, DistSym(tb, t)) + DistanceExtra(tb, t.distance)
  }

  function TokensBits(tb: Tables, l: CodeTable, d: CodeTable, ts: seq<Token>): seq<bool>
    requires TablesFit(tb) && Wide(l, d) && TokensOk(ts)
  {
    if ts == [] then []
    else TokensBits(tb, l, d, ts[..|ts| - 1]) + TokenBits(tb, l, d, ts[|ts| - 1])
  }

  /** The data of a block: its tokens and the end-of-block code. */
  function BodyBits(tb: Tables, l: CodeTable, d: CodeTable, ts: seq<Token>): seq<bool>
    requires TablesFit(tb) && Wide(l, d) && TokensOk(ts)
  {
    TokensBits(tb, l, d, ts) + CodeBits(l.fc, l.dl, END_OF_BLOCK)
  }

  // ---- reading back -----------------------------------------------------------------

  lemma LengthReads(tb: Tables, len: nat, rest: seq<bool>)
    requires TablesFit(tb) && 3 <= len <= 258
    ensures var c := LengthCode(tb, len);
      && LENGTH_BASE[c] + (len - LENGTH_BASE[c]) == len
      && len >= LENGTH_BASE[c]
      && ReadBits(LengthExtra(tb, len) + rest, LENGTH_EXTRA[c]) == Some((len - LENGTH_BASE[c], rest))
  {
    var c := LengthCode(tb, len);
    if c == LENGTH_CODES - 1 {
      assert LENGTH_BASE[c] == 258 && LENGTH_EXTRA[c] == 0 && LengthBits(c) == 0;
      assert LengthExtra(tb, len) + rest == rest;
    } else {
      LengthStep(c);
      assert LENGTH_BASE[c] - 3 == LengthStart(c);
      hide LengthStart, LengthBits;
      if LengthBits(c) == 0 {
        assert LengthExtra(tb, len) + rest == rest;
      } else {
        ReadBitsOf(len - 3 - LengthStart(c), LengthBits(c), rest);
      }
    }
  }

  lemma DistanceReads(tb: Tables, dist: nat, rest: seq<bool>)
    requires TablesFit(tb) && 1 <= dist <= 32768
    ensures var c := DistanceCode(tb, dist);
      && dist >= DISTANCE_BASE[c]
      && ReadBits(DistanceExtra(tb, dist) + rest, DISTANCE_EXTRA[c]) == Some((dist - DISTANCE_BASE[c], rest))
  {
    var c := DistanceCode(tb, dist);
    DistStep(c);
    assert DISTANCE_BASE[c] - 1 == DistStart(c);
    hide DistStart, DistBits;
    ReadBitsOf(dist - 1 - DistStart(c), DistBits(c), rest);
  }

  /** The token can be sent with the trees, whose lengths the decoder takes to be `ll` and
      `dd`. */
  predicate TokenEncodes(tb: Tables, l: CodeTable, d: CodeTable, ll: seq<nat>, dd: seq<nat>, t: Token)
    requires TablesFit(tb) && TokenOk(t)
  {
    && Encodes(l, ll, LitSym(tb, t))
    && (t.Match? ==> Encodes(d, dd, DistSym(tb, t)))
  }

  lemma ReadMatchOf(tb: Tables, l: CodeTable, d: CodeTable, ll: seq<nat>, dd: seq<nat>, t: Token, rest: seq<bool>)
    requires TablesFit(tb) && Wide(l, d) && TokenOk(t) && t.Match?
    requires TokenEncodes(tb, l, d, ll, dd, t) && ValidLengths(dd)
    ensures ReadMatch(dd, LitSym(tb, t),
                      LengthExtra(tb, t.length)
                      + (CodeBits(d.fc, d.dl, DistSym(tb, t)) + (DistanceExtra(tb, t.distance) + rest)))
         == Some((t.length, t.distance, rest))
  {
    hide ValidLengths, TablesFit, LengthExtra, DistanceExtra, DistanceCode, ReadSymbol, ReadBits, CodeBits, Codeword;
    var dx := DistanceExtra(tb, t.distance) + rest;
    LengthReads(tb, t.length, CodeBits(d.fc, d.dl, DistSym(tb, t)) + dx);
    ReadCodeword(dd, DistSym(tb, t), dx);
    DistanceReads(tb, t.distance, rest);
  }

  /** Reading a token's bits continues with the output that the token stands for. */
  lemma ReadToken(tb: Tables, l: CodeTable, d: CodeTable, ll: seq<nat>, dd: seq<nat>, t: Token, rest: seq<bool>,
                  out: seq<int>)
    requires TablesFit(tb) && Wide(l, d) && TokenOk(t)
    requires TokenEncodes(tb, l, d, ll, dd, t) && ValidLengths(ll) && ValidLengths(dd)
    ensures ReadBody(ll, dd, TokenBits(tb, l, d, t) + rest, out)
         == match Apply(t, out) case Some(o) => ReadBody(ll, dd, rest, o) case None => None
  {
    hide ValidLengths, LengthExtra, DistanceExtra, CopyMatch, TablesFit, ReadMatch, CodeBits;
    var c := CodeBits(l.fc, l.dl, LitSym(tb, t));
    if t.Literal? {
      ReadCodeword(ll, LitSym(tb, t), rest);
    } else {
      var a, b, e := LengthExtra(tb, t.length), CodeBits(d.fc, d.dl, DistSym(tb, t)), DistanceExtra(tb, t.distance);
      assert c + a + b + e + rest == c + (a + (b + (e + rest)));
      ReadCodeword(ll, LitSym(tb, t), a + (b + (e + rest)));
      ReadMatchOf(tb, l, d, ll, dd, t, rest);
    }
  }

  lemma {:induction false} ReadTokens(tb: Tables, l: CodeTable, d: CodeTable, ll: seq<nat>, dd: seq<nat>,
                                      ts: seq<Token>, rest: seq<bool>, out: seq<int>, o: seq<int>)
    requires TablesFit(tb) && Wide(l, d) && TokensOk(ts)
    requires forall i :: 0 <= i < |ts| ==> TokenEncodes(tb, l, d, ll, dd, ts[i])
    requires ValidLengths(ll) && ValidLengths(dd) && Expand(ts, out) == Some(o)
    ensures ReadBody(ll, dd, TokensBits(tb, l, d, ts) + rest, out) == ReadBody(ll, dd, rest, o)
    decreases |ts|
  {
    hide ValidLengths, TablesFit, ReadBody, Apply, Encodes, TokenBits;
    if ts == [] {
      assert TokensBits(tb, l, d, ts) + rest == rest;
    } else {
      var first, t := ts[..|ts| - 1], ts[|ts| - 1];
      var bits := TokenBits(tb, l, d, t);
      assert TokensBits(tb, l, d, ts) + rest == TokensBits(tb, l, d, first) + (bits + rest);
      ReadTokens(tb, l, d, ll, dd, first, bits + rest, out, Expand(first, out).value);
      ReadToken(tb, l, d, ll, dd, t, rest, Expand(first, out).value);
    }
  }

  /** Round trip of a block's data: the decoder gets exactly what the tokens stand for. */
  lemma ReadBodyBits(tb: Tables, l: CodeTable, d: CodeTable, ll: seq<nat>, dd: seq<nat>,
                     ts: seq<Token>, rest: seq<bool>, out: seq<int>, o: seq<int>)
    requires TablesFit(tb) && Wide(l, d) && TokensOk(ts)
    requires forall i :: 0 <= i < |ts| ==> TokenEncodes(tb, l, d, ll, dd, ts[i])
    requires Encodes(l, ll, END_OF_BLOCK)
    requires ValidLengths(ll) && ValidLengths(dd) && Expand(ts, out) == Some(o)
    ensures ReadBody(ll, dd, BodyBits(tb, l, d, ts) + rest, out) == Some((o, rest))
  {
    hide ValidLengths, TablesFit, Expand, TokensBits, CodeBits;
    var e := CodeBits(l.fc, l.dl, END_OF_BLOCK);
    assert BodyBits(tb, l, d, ts) + rest == TokensBits(tb, l, d, ts) + (e + rest);
    ReadTokens(tb, l, d, ll, dd, ts, e + rest, out, o);
    ReadCodeword(ll, END_OF_BLOCK, rest);
  }

  // ---- costs ------------------------------------------------------------------------

  predicate TokenCanSend(tb: Tables, l: CodeTable, d: CodeTable, t: Token)
    requires TablesFit(tb) && TokenOk(t)
  {
    CanSend(l.fc, l.dl, LitSym(tb, t)) && (t.Match? ==> CanSend(d.fc, d.dl, DistSym(tb, t)))
  }

  lemma SymbolExtra(tb: Tables, t: Token)
    requires TablesFit(tb) && TokenOk(t)
    ensures XBits(EXTRA_LBITS, LITERALS + 1, LitSym(tb, t))
         == if t.Match? then LengthBits(LengthCode(tb, t.length)) else 0
    ensures t.Match? ==> XBits(EXTRA_DBITS, 0, DistSym(tb, t)) == DistBits(DistanceCode(tb, t.distance))
  {
    hide TablesFit;
  }

  lemma TokenCost(tb: Tables, l: CodeTable, d: CodeTable, t: Token)
    requires TablesFit(tb) && Wide(l, d) && TokenOk(t) && TokenCanSend(tb, l, d, t)
    ensures |TokenBits(tb, l, d, t)|
         == l.dl[LitSym(tb, t)] + XBits(EXTRA_LBITS, LITERALS + 1, LitSym(tb, t))
          + if t.Match? then d.dl[DistSym(tb, t)] + XBits(EXTRA_DBITS, 0, DistSym(tb, t)) else 0
  {
    SymbolExtra(tb, t);
    hide TablesFit, XBits, LengthBits, DistBits;
  }

  /** The tokens take as many bits as the cost model counts. */
  lemma {:induction false} TokensCost(tb: Tables, l: CodeTable, d: CodeTable, ts: seq<Token>)
    requires TablesFit(tb) && Wide(l, d) && TokensOk(ts)
    requires forall i :: 0 <= i < |ts| ==> TokenCanSend(tb, l, d, ts[i])
    ensures |TokensBits(tb, l, d, ts)|
         == StreamCost(LitSyms(tb, ts), l.dl, EXTRA_LBITS, LITERALS + 1)
          + StreamCost(DistSyms(tb, ts), d.dl, EXTRA_DBITS, 0)
    decreases |ts|
  {
    hide TablesFit, XBits, StreamCost, TokenBits, TokenCanSend;
    if ts == [] {
      StreamCostNone(l.dl, EXTRA_LBITS, LITERALS + 1);
      StreamCostNone(d.dl, EXTRA_DBITS, 0);
    } else {
      var first, t := ts[..|ts| - 1], ts[|ts| - 1];
      TokensCost(tb, l, d, first);
      TokenCost(tb, l, d, t);
      StreamCostSnoc(LitSyms(tb, first), LitSym(tb, t), l.dl, EXTRA_LBITS, LITERALS + 1);
      if t.Match? {
        StreamCostSnoc(DistSyms(tb, first), DistSym(tb, t), d.dl, EXTRA_DBITS, 0);
      }
    }
  }

  lemma StreamCostNone(len: seq<int>, extra: seq<nat>, base: nat)
    ensures StreamCost([], len, extra, base) == 0
  {
  }

  /** The literal/length symbols of a block, the end-of-block symbol included. */
  function BlockSyms(tb: Tables, ts: seq<Token>): (r: seq<nat>)
    requires TablesFit(tb) && TokensOk(ts)
    ensures forall i :: 0 <= i < |r| ==> r[i] < L_CODES
  {
    [END_OF_BLOCK] + LitSyms(tb, ts)
  }

  lemma BodyCost(tb: Tables, l: CodeTable, d: CodeTable, ts: seq<Token>)
    requires TablesFit(tb) && Wide(l, d) && TokensOk(ts)
    requires forall i :: 0 <= i < |ts| ==> TokenCanSend(tb, l, d, ts[i])
    requires CanSend(l.fc, l.dl, END_OF_BLOCK)
    ensures |BodyBits(tb, l, d, ts)|
         == StreamCost(BlockSyms(tb, ts), l.dl, EXTRA_LBITS, LITERALS + 1)
          + StreamCost(DistSyms(tb, ts), d.dl, EXTRA_DBITS, 0)
  {
    TokensCost(tb, l, d, ts);
    assert XBits(EXTRA_LBITS, LITERALS + 1, END_OF_BLOCK) == 0;
    hide TablesFit, XBits, StreamCost, TokensBits, TokenCanSend;
    StreamCostNone(l.dl, EXTRA_LBITS, LITERALS + 1);
    StreamCostSnoc([], END_OF_BLOCK, l.dl, EXTRA_LBITS, LITERALS + 1);
    assert [] + [END_OF_BLOCK] == [END_OF_BLOCK];
    StreamCostConcat([END_OF_BLOCK], LitSyms(tb, ts), l.dl, EXTRA_LBITS, LITERALS + 1);
  }

  /** With the static trees a token takes at most 31 bits. */
  lemma StaticTokenBound(tb: Tables, t: Token)
    requires TablesFit(tb) && TokenOk(t)
    ensures TokenCanSend(tb, tb.staticL, tb.staticD, t) && CanSend(tb.staticL.fc, tb.staticL.dl, END_OF_BLOCK)
    ensures Wide(tb.staticL, tb.staticD)
    ensures |TokenBits(tb, tb.staticL, tb.staticD, t)| <= 31
  {
    StaticShape(tb, LitSym(tb, t));
    StaticShape(tb, END_OF_BLOCK);
    if t.Match? {
      StaticShape(tb, DistSym(tb, t));
    }
    hide TablesFit, CanSend, XBits;
    TokenBits31(tb, t);
  }

  lemma StaticShape(tb: Tables, sym: nat)
    requires TablesFit(tb) && sym < L_CODES
    ensures Encodes(tb.staticL, FixedLiteralLengths(), sym) && tb.staticL.dl[sym] == StaticLength(sym)
    ensures sym < D_CODES ==> Encodes(tb.staticD, FixedDistanceLengths(), sym) && tb.staticD.dl[sym] == 5
    ensures Wide(tb.staticL, tb.staticD)
  {
    FixedLimited();
    if sym < D_CODES {
      FixedDistance(sym);
    }
  }

  lemma TokenBits31(tb: Tables, t: Token)
    requires TablesFit(tb) && TokenOk(t) && TokenCanSend(tb, tb.staticL, tb.staticD, t) && Wide(tb.staticL, tb.staticD)
    ensures |TokenBits(tb, tb.staticL, tb.staticD, t)| <= 31
  {
    TokenCost(tb, tb.staticL, tb.staticD, t);
    SymbolExtra(tb, t);
    StaticShape(tb, LitSym(tb, t));
    if t.Match? {
      StaticShape(tb, DistSym(tb, t));
      ExtraBound(LengthCode(tb, t.length), DistanceCode(tb, t.distance));
    }
    hide TablesFit, TokenBits, XBits, LengthBits, DistBits, CanSend;
  }

  lemma ExtraBound(c: nat, d: nat)
    requires c < LENGTH_CODES && d < D_CODES
    ensures LengthBits(c) <= 5 && DistBits(d) <= 13
  {
  }
}
