/** The block that is being collected: tallying tokens (`zip_init_block`, `zip_ct_tally`)
    and sending them (`zip_compress_block`). */
module BlockWriter {
  import opened Bits
  import opened Options
  import opened HuffmanCode
  import opened Rfc1951
  import opened HuffmanBuild
  import opened BitLengths
  import opened SymbolCosts
  import opened BitWriter
  import opened TreeHeader
  import opened TreeSender
  import opened CodeTables
  import opened Tokens
  import opened BlockBuffer
  import opened DynamicTree

  const LIT_BUFSIZE: nat := 0x2000
  const INBUFSIZ: nat := 32768
  const MAX_BL_BITS: nat := 7
  const LEAST_TOKENS: nat := 0x1000    // of a block that is not the last

  /** The token that is tallied as the pair `dist`, `lc`. */
  function TokenOf(dist: nat, lc: nat): Token
  {
    if dist == 0 then Literal(lc) else Match(lc + 3, dist)
  }

  lemma FrequencySnoc(f: seq<int>, syms: seq<nat>, x: nat)
    requires IsFrequency(f, syms) && x < |f|
    ensures IsFrequency(f[x := f[x] + 1], syms + [x])
  {
    forall c | 0 <= c < |f|
      ensures f[x := f[x] + 1][c] == Occurs(syms + [x], c)
    {
      OccursSnoc(syms, x, c);
    }
  }

  /** The frequencies of both trees are those of the block's tokens. */
  predicate Frequencies(tb: Tables, lf: seq<int>, df: seq<int>, ts: seq<Token>)
  {
    && TablesFit(tb) && TokensOk(ts) && |lf| == L_CODES && |df| == D_CODES
    && IsFrequency(lf, BlockSyms(tb, ts)) && IsFrequency(df, DistSyms(tb, ts))
  }

  lemma FrequenciesSnoc(tb: Tables, lf: seq<int>, df: seq<int>, ts: seq<Token>, t: Token)
    requires Frequencies(tb, lf, df, ts) && TokenOk(t)
    ensures Frequencies(tb, lf[LitSym(tb, t) := lf[LitSym(tb, t)] + 1],
                        if t.Match? then df[DistSym(tb, t) := df[DistSym(tb, t)] + 1] else df, ts + [t])
  {
    hide TablesFit, IsFrequency;
    assert (ts + [t])[..|ts|] == ts;
    assert BlockSyms(tb, ts + [t]) == BlockSyms(tb, ts) + [LitSym(tb, t)];
    FrequencySnoc(lf, BlockSyms(tb, ts), LitSym(tb, t));
    if t.Match? {
      FrequencySnoc(df, DistSyms(tb, ts), DistSym(tb, t));
    }
  }

  lemma NoFrequencies(tb: Tables, lf: seq<int>, df: seq<int>)
    requires TablesFit(tb) && |lf| == L_CODES && |df| == D_CODES
    requires forall c {:trigger lf[c]} :: 0 <= c < L_CODES ==> lf[c] == if c == END_OF_BLOCK then 1 else 0
    requires forall c {:trigger df[c]} :: 0 <= c < D_CODES ==> df[c] == 0
    ensures Frequencies(tb, lf, df, [])
  {
    hide TablesFit;
    assert LitSyms(tb, []) == [];
    assert BlockSyms(tb, []) == [] + [END_OF_BLOCK];
    forall c | 0 <= c < L_CODES
      ensures lf[c] == Occurs(BlockSyms(tb, []), c)
    {
      OccursSnoc([], END_OF_BLOCK, c);
    }
  }

  /** The bits of the distances, 5 for each code, as the early flush test estimates them. */
  function DistanceEstimate(f: seq<int>, n: nat): int
    requires n <= |f| && n <= D_CODES
  {
    if n == 0 then 0 else DistanceEstimate(f, n - 1) + f[n - 1] * (5 + DistBits(n - 1))
  }

  /** Whether a block of `lits` tokens, `dists` of them matches, for `inLength` bytes of
      input, should end here. */
  predicate Profitable(level: int, lits: nat, dists: nat, inLength: nat, df: seq<int>)
    requires |df| >= D_CODES
  {
    && level > 2 && lits % 0x1000 == 0 && dists < lits / 2
    && (lits * 8 + DistanceEstimate(df, D_CODES)) / 8 < inLength / 2
  }

  lemma {:induction false} EstimateOfPrefix(f: seq<int>, n: nat)
    requires n <= D_CODES <= |f|
    ensures DistanceEstimate(f[..D_CODES], n) == DistanceEstimate(f, n)
  {
    if n != 0 {
      EstimateOfPrefix(f, n - 1);
    }
  }

  /** The bits of the distances of the tokens in the static code. */
  function StaticDistances(tb: Tables, ts: seq<Token>): int
    requires TablesFit(tb) && TokensOk(ts)
  {
    StreamCost(DistSyms(tb, ts), tb.staticD.dl, EXTRA_DBITS, 0)
  }

  lemma {:induction false} EstimateIsTotal(f: seq<int>, ls: seq<nat>, dl: seq<int>, n: nat)
    requires n <= |f| && n <= D_CODES == |ls| == |dl|
    requires forall c :: 0 <= c < D_CODES ==> dl[c] == 5 && ls[c] > 0
    ensures DistanceEstimate(f, n) == Total(f, ls, dl, EXTRA_DBITS, 0, n)
  {
    if n != 0 {
      EstimateIsTotal(f, ls, dl, n - 1);
    }
  }

  /** The estimate by frequencies is what the distances take in the static code. */
  lemma EstimateIsExact(tb: Tables, lf: seq<int>, df: seq<int>, ts: seq<Token>)
    requires Frequencies(tb, lf, df, ts)
    ensures DistanceEstimate(df, D_CODES) == StaticDistances(tb, ts)
  {
    hide IsFrequency, FixedDistanceLengths, FixedLiteralLengths, BlockSyms;
    var dl, ls := tb.staticD.dl, seq(D_CODES, i => 1);
    forall c | 0 <= c < D_CODES
      ensures dl[c] == 5
    {
      FixedDistance(c);
      assert Encodes(tb.staticD, FixedDistanceLengths(), c);
    }
    EstimateIsTotal(df, ls, dl, D_CODES);
    TotalIsStreamCost(df, DistSyms(tb, ts), ls, dl, EXTRA_DBITS, 0);
  }

  /** Whether a block ends with these tokens, which stand for `inLength` bytes. */
  predicate Due(tb: Tables, ts: seq<Token>, level: int, inLength: int)
    requires TablesFit(tb) && TokensOk(ts)
  {
    || |ts| == LIT_BUFSIZE - 1 || |Distances(ts)| == LIT_BUFSIZE
    || (level > 2 && |ts| % 0x1000 == 0 && |Distances(ts)| < |ts| / 2
        && (8 * |ts| + StaticDistances(tb, ts)) / 8 < inLength / 2)
  }

  lemma DueIsLong(tb: Tables, ts: seq<Token>, level: int, inLength: int)
    requires TablesFit(tb) && TokensOk(ts) && Due(tb, ts, level, inLength)
    ensures |ts| >= LEAST_TOKENS
  {
    DistanceCount(ts);
  }

  /** The descriptors of `zip_ct_init`: no symbol that may be forced into use has extra bits. */
  lemma Descriptors(t: Tables)
    requires TablesFit(t)
    ensures Fitting(L_CODES, EXTRA_LBITS, LITERALS + 1, MAX_BITS, Some(t.staticL.dl))
    ensures Fitting(D_CODES, EXTRA_DBITS, 0, MAX_BITS, Some(t.staticD.dl))
    ensures Fitting(BL_CODES, EXTRA_BLBITS, 0, MAX_BL_BITS, None)
  {
    assert Pow2(7) == 128 && Pow2(9) == 512;
    Pow2Mono(9, 15);
    assert EXTRA_DBITS[0] == EXTRA_DBITS[1] == EXTRA_DBITS[2] == 0;
    assert EXTRA_BLBITS[0] == EXTRA_BLBITS[1] == EXTRA_BLBITS[2] == 0;
  }

  /** The three trees are those of `zip_ct_init`. */
  ghost predicate Described(tables: Tables, l: Tree, d: Tree, bl: Tree)
  {
    && l.Shape() && l.elems == L_CODES && l.extraBits == EXTRA_LBITS && l.extraBase == LITERALS + 1
    && l.maxLength == MAX_BITS && l.staticDl == Some(tables.staticL.dl)
    && d.Shape() && d.elems == D_CODES && d.extraBits == EXTRA_DBITS && d.extraBase == 0
    && d.maxLength == MAX_BITS && d.staticDl == Some(tables.staticD.dl)
    && bl.Shape() && bl.elems == BL_CODES && bl.extraBits == EXTRA_BLBITS && bl.extraBase == 0
    && bl.maxLength == MAX_BL_BITS && bl.staticDl == None
  }

  method NewTrees(t: Tables) returns (l: Tree, d: Tree, bl: Tree)
    requires TablesFit(t)
    ensures Described(t, l, d, bl) && l != d && l != bl && d != bl
    ensures fresh({l, d, bl} + l.Arrays() + d.Arrays() + bl.Arrays()) && l.Arrays() !! d.Arrays() !! bl.Arrays()
  {
    hide TablesFit, Fitting;
    Descriptors(t);
    l := new Tree(L_CODES, EXTRA_LBITS, LITERALS + 1, MAX_BITS, Some(t.staticL.dl));
    d := new Tree(D_CODES, EXTRA_DBITS, 0, MAX_BITS, Some(t.staticD.dl));
    bl := new Tree(BL_CODES, EXTRA_BLBITS, 0, MAX_BL_BITS, None);
  }

  class Block {
    const tables: Tables
    const l: Tree
    const d: Tree
    const bl: Tree
    const lBuf: array<int>
    const dBuf: array<int>
    const flagBuf: array<int>
    const heap: array<int>
    const depth: array<int>
    const blCount: array<int>
    var lastLit: nat
    var lastDist: nat
    var lastFlags: nat
    var flags: nat
    var flagBit: nat
    var optLen: int
    var staticLen: int

    ghost var tokens: seq<Token>    // of the block so far

    ghost function Buffers(): set<object> { {lBuf, dBuf, flagBuf} }
    ghost function Work(): set<object> { {heap, depth, blCount} }
    ghost function Repr(): set<object>
    {
      {this, lBuf, dBuf, flagBuf, heap, depth, blCount, l, l.fc, l.dl, d, d.fc, d.dl, bl, bl.fc, bl.dl}
    }

    /** What never changes: the tables, the sizes, and that nothing is shared. */
    ghost predicate Shape()
    {
      && TablesFit(tables) && Described(tables, l, d, bl)
      && lBuf.Length == INBUFSIZ + 64 && dBuf.Length == LIT_BUFSIZE && flagBuf.Length == LIT_BUFSIZE / 8
      && heap.Length == depth.Length == HEAP_SIZE && blCount.Length == MAX_BITS + 1
      && Separate()
    }

    ghost predicate Separate()
    {
      && lBuf != dBuf && lBuf != flagBuf && dBuf != flagBuf
      && heap != depth && blCount != heap && blCount != depth
      && l != d && l != bl && d != bl
      && Buffers() !! Work() !! l.Arrays() !! d.Arrays() !! bl.Arrays()
    }

    /** The arrays hold the block's tokens. */
    ghost predicate Stored()
      reads this, lBuf, dBuf, flagBuf
    {
      && lastLit <= lBuf.Length && lastDist <= dBuf.Length && lastFlags <= flagBuf.Length
      && TokensOk(tokens) && |tokens| == lastLit < LIT_BUFSIZE
      && Recorded(lBuf[..lastLit], dBuf[..lastDist], flagBuf[..lastFlags], tokens)
      && Open(flags, flagBit, lastFlags, tokens)
    }

    ghost predicate Counted()
      requires Shape()
      reads this, l.fc, d.fc, bl.fc
    {
      && Frequencies(tables, l.fc[..L_CODES], d.fc[..D_CODES], tokens)
      && (forall c :: 0 <= c < BL_CODES ==> bl.fc[c] == 0)
      && optLen == 0 && staticLen == 0
    }

    ghost predicate Valid()
      reads this, lBuf, dBuf, flagBuf, l.fc, d.fc, bl.fc
    {
      Shape() && Stored() && Counted()
    }

    /** The allocation of `zip_deflate_start`, and `zip_ct_init`. */
    constructor ()
      ensures Valid() && tokens == [] && lastLit == 0 && fresh(Repr())
    {
      hide TablesFit, Described, Block.Valid, Block.Stored, Block.Counted;
      var t := InitTables();
      var lTree, dTree, blTree := NewTrees(t);
      tables, l, d, bl := t, lTree, dTree, blTree;
      lBuf := new int[INBUFSIZ + 64];
      dBuf := new int[LIT_BUFSIZE];
      flagBuf := new int[LIT_BUFSIZE / 8];
      heap := new int[HEAP_SIZE];
      depth := new int[HEAP_SIZE];
      blCount := new int[MAX_BITS + 1];
      new;
      InitBlock();
    }

    /** `zip_init_block` */
    method InitBlock()
      requires Shape()
      modifies this, l.fc, d.fc, bl.fc
      ensures Valid() && tokens == [] && lastLit == 0
    {
      hide TablesFit;
      InitFrequencies();
      optLen, staticLen := 0, 0;
      lastLit, lastDist, lastFlags := 0, 0, 0;
      flags := 0;
      flagBit := 1;
      tokens := [];
      NoFrequencies(tables, l.fc[..L_CODES], d.fc[..D_CODES]);
    }

    method InitFrequencies()
      requires Shape()
      modifies l.fc, d.fc, bl.fc
      ensures forall c :: 0 <= c < L_CODES ==> l.fc[c] == if c == END_OF_BLOCK then 1 else 0
      ensures forall c :: 0 <= c < D_CODES ==> d.fc[c] == 0
      ensures forall c :: 0 <= c < BL_CODES ==> bl.fc[c] == 0
    {
      hide TablesFit;
      Zero(l.fc, L_CODES);
      Zero(d.fc, D_CODES);
      Zero(bl.fc, BL_CODES);
      l.fc[END_OF_BLOCK] := 1;
    }

    /** `zip_ct_tally`: one more token; whether the block must be flushed now. */
    method Tally(dist: nat, lc: nat, level: int, inLength: nat) returns (flush: bool)
      requires Valid() && lastLit < LIT_BUFSIZE - 1 && lc < 256 && dist <= 32768
      modifies this, lBuf, dBuf, flagBuf, l.fc, d.fc
      ensures Valid() && tokens == old(tokens) + [TokenOf(dist, lc)] && lastLit == old(lastLit) + 1
      ensures flush <==> || |tokens| == LIT_BUFSIZE - 1 || |Distances(tokens)| == LIT_BUFSIZE
                         || (level > 2 && |tokens| % 0x1000 == 0 && |Distances(tokens)| < |tokens| / 2
                             && (8 * |tokens| + StaticDistances(tables, tokens)) / 8 < inLength / 2)
      ensures flush ==> |tokens| >= LEAST_TOKENS
    {
      hide TablesFit, Frequencies, Recorded, Open, Profitable, StaticDistances, Distances, TokensOk;
      CountToken(dist, lc, tokens);
      StoreToken(dist, lc);
      flush := ShouldFlush(level, inLength);
      FewerDistances();
      DueIsProfitable(level, inLength);
      if flush {
        DueIsLong(tables, tokens, level, inLength);
      }
    }

    lemma FewerDistances()
      requires Stored()
      ensures lastDist == |Distances(tokens)| <= lastLit
    {
      DistanceCount(tokens);
      assert |dBuf[..lastDist]| == lastDist;
    }

    lemma DueIsProfitable(level: int, inLength: nat)
      requires Shape() && Stored() && Frequencies(tables, l.fc[..L_CODES], d.fc[..D_CODES], tokens)
      ensures Due(tables, tokens, level, inLength) <==>
                Profitable(level, lastLit, lastDist, inLength, d.fc[..])
                || lastLit == LIT_BUFSIZE - 1 || lastDist == LIT_BUFSIZE
    {
      hide TablesFit, Frequencies, Recorded, Open, StaticDistances, DistanceEstimate;
      FewerDistances();
      EstimateIsExact(tables, l.fc[..L_CODES], d.fc[..D_CODES], tokens);
      EstimateOfPrefix(d.fc[..], D_CODES);
    }

    /** The buffers and the flags of `zip_ct_tally`. */
    method StoreToken(dist: nat, lc: nat)
      requires Separate() && Stored() && TokenOk(TokenOf(dist, lc))
      requires lBuf.Length == INBUFSIZ + 64 && dBuf.Length == LIT_BUFSIZE && flagBuf.Length == LIT_BUFSIZE / 8
      requires lastLit < LIT_BUFSIZE - 1
      modifies this`lastLit, this`lastDist, this`lastFlags, this`flags, this`flagBit, this`tokens, lBuf, dBuf, flagBuf
      ensures Stored() && tokens == old(tokens) + [TokenOf(dist, lc)] && lastLit == old(lastLit) + 1
    {
      hide Recorded, Open, BitOr, TokensOk, TokenOk;
      ghost var t, ts := TokenOf(dist, lc), tokens;
      ghost var lb, db, fb := lBuf[..lastLit], dBuf[..lastDist], flagBuf[..lastFlags];
      StoreStep(lb, db, fb, flags, flagBit, ts, t);
      RecordToken(dist, lc);
      tokens := tokens + [t];
      assert db + [] == db && fb + [] == fb;
      PushFlags();
      assert Recorded(lBuf[..lastLit], dBuf[..lastDist], flagBuf[..lastFlags], tokens);
    }

    method RecordToken(dist: nat, lc: nat)
      requires lBuf != dBuf && lastLit < lBuf.Length && lastDist < dBuf.Length
      requires lBuf != flagBuf && dBuf != flagBuf && lastFlags <= flagBuf.Length
      modifies this`lastLit, this`lastDist, this`flags, this`flagBit, lBuf, dBuf
      ensures lastLit == old(lastLit) + 1 && lastDist == old(lastDist) + if dist != 0 then 1 else 0
      ensures lBuf[..lastLit] == old(lBuf[..lastLit]) + [lc]
      ensures lastDist <= dBuf.Length
      ensures dBuf[..lastDist] == old(dBuf[..lastDist]) + if dist != 0 then [dist - 1] else []
      ensures flags == if dist != 0 then BitOr(old(flags), old(flagBit)) else old(flags)
      ensures flagBit == 2 * old(flagBit)
      ensures flagBuf[..lastFlags] == old(flagBuf[..lastFlags])
    {
      lBuf[lastLit] := lc;
      lastLit := lastLit + 1;
      if dist != 0 {
        dBuf[lastDist] := dist - 1;
        lastDist := lastDist + 1;
        flags := BitOr(flags, flagBit);
      }
      flagBit := 2 * flagBit;
    }

    /** Eight flags fill a byte. */
    method PushFlags()
      requires lastFlags < flagBuf.Length && lastLit <= lBuf.Length && lastDist <= dBuf.Length
      requires lBuf != flagBuf && dBuf != flagBuf
      modifies this`lastFlags, this`flags, this`flagBit, flagBuf
      ensures lastFlags == old(lastFlags) + if lastLit % 8 == 0 then 1 else 0
      ensures lastFlags <= flagBuf.Length
      ensures lBuf[..lastLit] == old(lBuf[..lastLit]) && dBuf[..lastDist] == old(dBuf[..lastDist])
      ensures flagBuf[..lastFlags] == old(flagBuf[..lastFlags]) + if lastLit % 8 == 0 then [old(flags)] else []
      ensures flags == (if lastLit % 8 == 0 then 0 else old(flags))
      ensures flagBit == (if lastLit % 8 == 0 then 1 else old(flagBit))
    {
      if lastLit % 8 == 0 {
        flagBuf[lastFlags] := flags;
        lastFlags := lastFlags + 1;
        flags := 0;
        flagBit := 1;
      }
    }

    /** The frequencies of `zip_ct_tally`. */
    method CountToken(dist: nat, lc: nat, ghost ts: seq<Token>)
      requires Shape() && TokenOk(TokenOf(dist, lc))
      requires Frequencies(tables, l.fc[..L_CODES], d.fc[..D_CODES], ts)
      modifies l.fc, d.fc
      ensures Frequencies(tables, l.fc[..L_CODES], d.fc[..D_CODES], ts + [TokenOf(dist, lc)])
    {
      hide TablesFit, Frequencies;
      ghost var t, lf, df := TokenOf(dist, lc), l.fc[..L_CODES], d.fc[..D_CODES];
      FrequenciesSnoc(tables, lf, df, ts, t);
      if dist == 0 {
        l.fc[lc] := l.fc[lc] + 1;
      } else {
        var lsym, dsym := SymbolsOf(dist, lc);
        l.fc[lsym] := l.fc[lsym] + 1;
        d.fc[dsym] := d.fc[dsym] + 1;
        assert d.fc[..D_CODES] == df[dsym := df[dsym] + 1];
      }
      assert l.fc[..L_CODES] == lf[LitSym(tables, t) := lf[LitSym(tables, t)] + 1];
    }

    method SymbolsOf(dist: nat, lc: nat) returns (lsym: nat, dsym: nat)
      requires TablesFit(tables) && dist > 0 && TokenOk(TokenOf(dist, lc))
      ensures lsym == LitSym(tables, TokenOf(dist, lc)) && dsym == DistSym(tables, TokenOf(dist, lc))
    {
      DistCoded(tables.distCode, dist - 1);
      lsym := tables.lengthCode[lc] + LITERALS + 1;
      dsym := DCode(tables.distCode, dist - 1);
    }

    /** The arrays hold the block's tokens, the flags of the last group included. */
    ghost predicate Saved()
      reads this, lBuf, dBuf, flagBuf
    {
      && lastLit <= lBuf.Length && lastDist <= dBuf.Length && lastFlags < flagBuf.Length
      && TokensOk(tokens) && |tokens| == lastLit && lastFlags == lastLit / 8
      && Recorded(lBuf[..lastLit], dBuf[..lastDist], flagBuf[..lastFlags + 1], tokens)
    }

    /** One round of `zip_compress_block`: the next token, and the flags of the ones behind it. */
    method SendAt(sink: BitSink, lt: CodeTable, dt: CodeTable, lx: nat, dx: nat, fx: nat, flag: nat)
      returns (dx': nat, fx': nat, flag': nat)
      requires sink.Ready() && sink.Repr() !! Repr() && TablesFit(tables) && Saved() && Wide(lt, dt)
      requires lx < |tokens| && At(tokens, lx, dx, fx, flag) && TokenCanSend(tables, lt, dt, tokens[lx])
      modifies sink.Repr()
      ensures sink.Written() && sink.bits == old(sink.bits) + TokenBits(tables, lt, dt, tokens[lx])
      ensures At(tokens, lx + 1, dx', fx', flag')
    {
      hide BitSink.Valid, TablesFit, CodeBits, TokenBits, TokenCanSend, Recorded, At, Wide;
      TokenStored(lBuf[..lastLit], dBuf[..lastDist], flagBuf[..lastFlags + 1], tokens, lx);
      AtStep(tokens, lx, dx, fx, flag);
      fx', flag' := fx, flag;
      if lx % 8 == 0 {
        flag' := flagBuf[fx];
        fx' := fx + 1;
      }
      var isMatch := flag' % 2 == 1;
      SendToken(sink, tables, lt, dt, isMatch, lBuf[lx], if isMatch then dBuf[dx] else 0, tokens[lx]);
      dx' := if isMatch then dx + 1 else dx;
      flag' := flag' / 2;
    }

    /** `zip_compress_block` */
    method CompressBlock(sink: BitSink, lt: CodeTable, dt: CodeTable)
      requires sink.Ready() && sink.Repr() !! Repr() && TablesFit(tables) && Saved() && Wide(lt, dt)
      requires forall i :: 0 <= i < |tokens| ==> TokenCanSend(tables, lt, dt, tokens[i])
      requires CanSend(lt.fc, lt.dl, END_OF_BLOCK)
      modifies sink.Repr()
      ensures sink.Written() && sink.bits == old(sink.bits) + BodyBits(tables, lt, dt, tokens)
    {
      hide BitSink.Valid, BitSink.Ready, BitSink.Repr, TablesFit, TokensBits, TokenBits, CodeBits, TokenCanSend,
        Recorded, At, Wide;
      ghost var bits0, ts, all, taken, put := sink.bits, tokens, sink.Repr(), sink.out.taken, sink.out.put;
      var lx, dx, fx, flag: nat := 0, 0, 0, 0;
      NothingSent(tables, lt, dt, ts);
      while lx < lastLit
        invariant lx <= |ts| == lastLit && sink.Ready() && sink.Repr() !! Repr() && Saved() && tokens == ts
        invariant all <= sink.Repr() && fresh(sink.Repr() - all) && sink.out.taken == taken && put <= sink.out.put
        invariant At(ts, lx, dx, fx, flag) && sink.bits == bits0 + TokensBits(tables, lt, dt, ts[..lx])
      {
        SendStep(tables, lt, dt, ts, lx);
        ghost var before := sink.Repr();
        label Step:
        dx, fx, flag := SendAt(sink, lt, dt, lx, dx, fx, flag);
        forall o | o in sink.Repr() && o !in before
          ensures fresh(o)
        {
          assert !old@Step(allocated(o));
        }
        lx := lx + 1;
      }
      assert ts[..lx] == ts;
      ghost var body := sink.Repr();
      label End:
      SendCode(sink, END_OF_BLOCK, lt.fc, lt.dl);
      forall o | o in sink.Repr() && o !in body
        ensures fresh(o)
      {
        assert !old@End(allocated(o));
      }
    }

    /** The early flush test at the end of `zip_ct_tally`. */
    method ShouldFlush(level: int, inLength: nat) returns (flush: bool)
      requires Shape()
      ensures flush <==> Profitable(level, lastLit, lastDist, inLength, d.fc[..])
                         || lastLit == LIT_BUFSIZE - 1 || lastDist == LIT_BUFSIZE
    {
      hide TablesFit;
      if level > 2 && lastLit % 0x1000 == 0 {
        var outLength := lastLit * 8;
        var dcode := 0;
        while dcode < D_CODES
          invariant dcode <= D_CODES && outLength == lastLit * 8 + DistanceEstimate(d.fc[..], dcode)
        {
          outLength := outLength + d.fc[dcode] * (5 + EXTRA_DBITS[dcode]);
          dcode := dcode + 1;
        }
        outLength := outLength / 8;
        if lastDist < lastLit / 2 && outLength < inLength / 2 {
          return true;
        }
      }
      flush := lastLit == LIT_BUFSIZE - 1 || lastDist == LIT_BUFSIZE;
    }
  }

  /** The arrays and flags after one more token: with eight flags the group is closed. */
  lemma StoreStep(lb: seq<int>, db: seq<int>, fb: seq<int>, flags: nat, flagBit: nat, ts: seq<Token>, t: Token)
    requires Recorded(lb, db, fb, ts) && Open(flags, flagBit, |fb|, ts) && TokensOk(ts) && TokenOk(t)
    ensures |lb| == |ts| && |db| <= |ts| && |fb| == |ts| / 8 && TokensOk(ts + [t])
    ensures var flags' := if t.Match? then BitOr(flags, flagBit) else flags;
      var lb', db', ts' := lb + [LitOrLength(t)], if t.Match? then db + [t.distance - 1] else db, ts + [t];
      if |ts'| % 8 == 0 then Recorded(lb', db', fb + [flags'], ts') && Open(0, 1, |fb| + 1, ts')
      else Recorded(lb', db', fb, ts') && Open(flags', 2 * flagBit, |fb|, ts')
  {
    DistanceCount(ts);
    RecordedSnoc(lb, db, fb, ts, t);
    FlagAdded(flags, flagBit, |fb|, ts, t);
    hide Recorded, Kinds;
    var flags' := if t.Match? then BitOr(flags, flagBit) else flags;
    var lb', db', ts' := lb + [LitOrLength(t)], if t.Match? then db + [t.distance - 1] else db, ts + [t];
    if |ts'| % 8 == 0 {
      FlagsSaved(lb', db', fb, ts', flags');
      assert Kinds(ts')[|ts'|..] == [];
    }
  }

  // ---- sending a token --------------------------------------------------------------

  /** The length part of a match in `zip_compress_block`; `lc` is the length less 3. */
  method SendLength(sink: BitSink, tb: Tables, lt: CodeTable, lc: nat, ghost t: Token)
    requires sink.Ready() && TablesFit(tb) && TokenOk(t) && t.Match? && t.length == lc + 3
    requires CanSend(lt.fc, lt.dl, LitSym(tb, t))
    modifies sink.Repr()
    ensures sink.Written()
    ensures sink.bits == old(sink.bits) + (CodeBits(lt.fc, lt.dl, LitSym(tb, t)) + LengthExtra(tb, t.length))
  {
    hide BitSink.Valid, CodeBits, TablesFit, LengthBits, LengthExtra, LengthCode, LitSym;
    LengthRange(tb, lc);
    SymbolOf(tb, t);
    var code := tb.lengthCode[lc];
    SendCode(sink, code + LITERALS + 1, lt.fc, lt.dl);
    var extra := LengthBits(code);
    if extra != 0 {
      sink.SendBits(lc - tb.baseLength[code], extra);
    }
  }

  lemma SymbolOf(tb: Tables, t: Token)
    requires TablesFit(tb) && TokenOk(t) && t.Match?
    ensures LitSym(tb, t) == LengthCode(tb, t.length) + LITERALS + 1 && DistSym(tb, t) == DistanceCode(tb, t.distance)
  {
  }

  lemma LengthRange(tb: Tables, lc: nat)
    requires TablesFit(tb) && lc < 256
    ensures |tb.lengthCode| == 256 && |tb.baseLength| == LENGTH_CODES
    ensures var c := LengthCode(tb, lc + 3);
      c == tb.lengthCode[lc] && LengthBits(c) <= 5 && (if LengthBits(c) == 0 then LengthExtra(tb, lc + 3) == [] else
        0 <= lc - tb.baseLength[c] < Pow2(LengthBits(c))
        && LengthExtra(tb, lc + 3) == BitsOf(lc - tb.baseLength[c], LengthBits(c)))
  {
    hide LengthStart, FixedLiteralLengths, FixedDistanceLengths, Encodes, Pow2, BitsOf;
    ExtraBound(LengthCode(tb, lc + 3), 0);
    assert LengthBits(LENGTH_CODES - 1) == 0;
  }

  lemma DistanceRange(tb: Tables, dist: nat)
    requires TablesFit(tb) && dist < 32768
    ensures |tb.distCode| == 512 && |tb.baseDist| == D_CODES
    ensures var c := DistanceCode(tb, dist + 1);
      c == DCode(tb.distCode, dist) && DistBits(c) <= 13
      && 0 <= dist - tb.baseDist[c] < Pow2(DistBits(c))
      && DistanceExtra(tb, dist + 1) == BitsOf(dist - tb.baseDist[c], DistBits(c))
  {
    hide DistStart, DistBits, FixedLiteralLengths, FixedDistanceLengths, Encodes, Pow2, BitsOf;
    ExtraBound(0, DistanceCode(tb, dist + 1));
  }

  /** The distance part; `dist` is the distance less 1. */
  method SendDistance(sink: BitSink, tb: Tables, dt: CodeTable, dist: nat, ghost t: Token)
    requires sink.Ready() && TablesFit(tb) && TokenOk(t) && t.Match? && t.distance == dist + 1
    requires CanSend(dt.fc, dt.dl, DistSym(tb, t))
    modifies sink.Repr()
    ensures sink.Written()
    ensures sink.bits == old(sink.bits) + (CodeBits(dt.fc, dt.dl, DistSym(tb, t)) + DistanceExtra(tb, t.distance))
  {
    hide BitSink.Valid, CodeBits, TablesFit, DistBits, DistanceExtra, DistanceCode, DistSym, DCode;
    DistanceRange(tb, dist);
    SymbolOf(tb, t);
    var code := DCode(tb.distCode, dist);
    SendCode(sink, code, dt.fc, dt.dl);
    var extra := DistBits(code);
    if extra != 0 {
      sink.SendBits(dist - tb.baseDist[code], extra);
    }
  }

  /** Both parts of a match. */
  method SendMatch(sink: BitSink, tb: Tables, lt: CodeTable, dt: CodeTable, lc: nat, dist: nat, ghost t: Token)
    requires sink.Ready() && TablesFit(tb) && TokenOk(t) && t.Match? && t.length == lc + 3 && t.distance == dist + 1
    requires Wide(lt, dt) && CanSend(lt.fc, lt.dl, LitSym(tb, t)) && CanSend(dt.fc, dt.dl, DistSym(tb, t))
    modifies sink.Repr()
    ensures sink.Written() && sink.bits == old(sink.bits) + TokenBits(tb, lt, dt, t)
  {
    hide BitSink.Valid, CodeBits, TablesFit, LengthExtra, DistanceExtra, CanSend, TokenBits, LitSym, DistSym;
    ghost var bits0 := sink.bits;
    SendLength(sink, tb, lt, lc, t);
    SendDistance(sink, tb, dt, dist, t);
    MatchBits(tb, lt, dt, t, bits0);
  }

  lemma MatchBits(tb: Tables, lt: CodeTable, dt: CodeTable, t: Token, bits: seq<bool>)
    requires TablesFit(tb) && TokenOk(t) && t.Match? && Wide(lt, dt)
    ensures bits + (CodeBits(lt.fc, lt.dl, LitSym(tb, t)) + LengthExtra(tb, t.length))
              + (CodeBits(dt.fc, dt.dl, DistSym(tb, t)) + DistanceExtra(tb, t.distance))
         == bits + TokenBits(tb, lt, dt, t)
  {
    hide TablesFit, CodeBits, LengthExtra, DistanceExtra, LitSym, DistSym;
  }

  /** One token, as stored in the buffers. */
  method SendToken(sink: BitSink, tb: Tables, lt: CodeTable, dt: CodeTable, isMatch: bool, lc: nat, dist: nat,
                   ghost t: Token)
    requires sink.Ready() && TablesFit(tb) && TokenOk(t) && Wide(lt, dt) && TokenCanSend(tb, lt, dt, t)
    requires isMatch == t.Match? && lc == LitOrLength(t) && (isMatch ==> dist == t.distance - 1)
    modifies sink.Repr()
    ensures sink.Written() && sink.bits == old(sink.bits) + TokenBits(tb, lt, dt, t)
  {
    hide BitSink.Valid, CodeBits, TablesFit, LengthExtra, DistanceExtra, CanSend;
    if !isMatch {
      SendCode(sink, lc, lt.fc, lt.dl);
    } else {
      SendMatch(sink, tb, lt, dt, lc, dist, t);
    }
  }

  /** Where `zip_compress_block` is before token `lx`. */
  predicate At(ts: seq<Token>, lx: nat, dx: nat, fx: nat, flag: nat)
  {
    && lx <= |ts| && fx == (lx + 7) / 8 && dx == |Distances(ts[..lx])|
    && (lx % 8 != 0 && lx < |ts| ==> flag == GroupFrom(ts, lx))
  }

  lemma AtStep(ts: seq<Token>, lx: nat, dx: nat, fx: nat, flag: nat)
    requires At(ts, lx, dx, fx, flag) && lx < |ts|
    ensures dx == |Distances(ts[..lx])| && (lx % 8 == 0 ==> fx == lx / 8) && (lx % 8 != 0 ==> flag == GroupFrom(ts, lx))
    ensures (GroupFrom(ts, lx) % 2 == 1) == ts[lx].Match?
    ensures At(ts, lx + 1, if ts[lx].Match? then dx + 1 else dx, if lx % 8 == 0 then fx + 1 else fx,
               GroupFrom(ts, lx) / 2)
  {
    FlagRead(ts, lx);
    assert ts[..lx + 1] == ts[..lx] + [ts[lx]];
    DistancesSnoc(ts[..lx], ts[lx]);
    hide GroupFrom, Distances;
  }

  lemma NothingSent(tb: Tables, lt: CodeTable, dt: CodeTable, ts: seq<Token>)
    requires TablesFit(tb) && Wide(lt, dt)
    ensures TokensBits(tb, lt, dt, ts[..0]) == [] && At(ts, 0, 0, 0, 0)
  {
  }

  lemma SendStep(tb: Tables, lt: CodeTable, dt: CodeTable, ts: seq<Token>, n: nat)
    requires TablesFit(tb) && Wide(lt, dt) && TokensOk(ts) && n < |ts|
    ensures TokensBits(tb, lt, dt, ts[..n + 1]) == TokensBits(tb, lt, dt, ts[..n]) + TokenBits(tb, lt, dt, ts[n])
  {
    assert ts[..n + 1][..n] == ts[..n] && ts[..n + 1] == ts[..n] + [ts[n]];
  }

  /** Where the parts of token `n` are. */
  lemma TokenStored(lb: seq<int>, db: seq<int>, fb: seq<int>, ts: seq<Token>, n: nat)
    requires Recorded(lb, db, fb, ts) && n < |ts| && |fb| == |ts| / 8 + 1
    ensures lb[n] == LitOrLength(ts[n])
    ensures n % 8 == 0 ==> fb[n / 8] == GroupFrom(ts, n)
    ensures var dx := |Distances(ts[..n])|; ts[n].Match? ==> dx < |db| && db[dx] == ts[n].distance - 1
  {
    DistancesPrefix(ts, n);
  }

  lemma DistanceCount(ts: seq<Token>)
    ensures |Distances(ts)| <= |ts|
  {
    if ts != [] {
      DistancesPrefix(ts, 0);
    }
  }

  method Zero(a: array<int>, n: nat)
    requires n <= a.Length
    modifies a
    ensures forall c :: 0 <= c < n ==> a[c] == 0
  {
    for c := 0 to n
      invariant forall k :: 0 <= k < c ==> a[k] == 0
    {
      a[c] := 0;
    }
  }
}
