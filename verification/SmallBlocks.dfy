/** Blocks whose trees cannot overflow: those with not too many tokens and few different codes,
    and so all blocks for an input that is short, or has few different bytes and repetitions. */
module SmallBlocks {
  import opened Options
  import opened HuffmanCode
  import opened Rfc1951
  import opened HuffmanDepth
  import opened SymbolCosts
  import opened HuffmanStart
  import opened TreeBuilder
  import opened TreeHeader
  import opened CodeTables
  import opened Tokens
  import opened BlockWriter
  import opened SentBlocks

  // ---- the total of a frequency table -------------------------------------------------

  /** How many symbols of the stream are less than `n`. */
  function Below(syms: seq<nat>, n: nat): nat
  {
    if syms == [] then 0
    else Below(syms[..|syms| - 1], n) + if syms[|syms| - 1] < n then 1 else 0
  }

  lemma {:induction false} BelowStep(syms: seq<nat>, n: nat)
    ensures Below(syms, 0) == 0 && Below(syms, n + 1) == Below(syms, n) + Occurs(syms, n)
  {
    if syms != [] {
      BelowStep(syms[..|syms| - 1], n);
    }
  }

  lemma {:induction false} BelowAll(syms: seq<nat>, n: nat)
    requires forall i :: 0 <= i < |syms| ==> syms[i] < n
    ensures Below(syms, n) == |syms|
  {
    if syms != [] {
      BelowAll(syms[..|syms| - 1], n);
    }
  }

  lemma {:induction false} TotalBelow(f: seq<int>, syms: seq<nat>, n: nat)
    requires IsFrequency(f, syms) && n <= |f|
    ensures TotalOf(f, n) == Below(syms, n)
  {
    if n == 0 {
      BelowStep(syms, 0);
    } else {
      TotalBelow(f, syms, n - 1);
      BelowStep(syms, n - 1);
    }
  }

  /** The frequencies of a stream add up to its length. */
  lemma TotalOfFrequency(f: seq<int>, syms: seq<nat>)
    requires IsFrequency(f, syms)
    ensures TotalOf(f, |f|) == |syms|
  {
    TotalBelow(f, syms, |f|);
    BelowAll(syms, |f|);
  }

  lemma {:induction false} TotalUpdate(f: seq<int>, x: nat, v: int, n: nat)
    requires x < |f| && n <= |f|
    ensures TotalOf(f[x := v], n) == TotalOf(f, n) + if x < n then v - f[x] else 0
  {
    if n != 0 {
      TotalUpdate(f, x, v, n - 1);
    }
  }

  /** Forcing two symbols into use adds at most 2 to the total. */
  lemma {:induction false} ForcedTotal(f: seq<int>, used: nat)
    requires |f| >= 3 && IsUsedCount(f, used)
    ensures TotalOf(Forced(f, used), |f|) == TotalOf(f, |f|) + if used < 2 then 2 - used else 0
    ensures |Used(Forced(f, used), |f|)| == if used < 2 then 2 else used
    decreases 2 - used
  {
    if used < 2 {
      var x := ForcedSymbol(MaxUsed(f, |f|));
      ForcedIsNew(f, used);
      TotalUpdate(f, x, 1, |f|);
      ForcedTotal(f[x := 1], used + 1);
    }
  }

  lemma {:induction false} UsedFits(f: seq<int>, n: nat)
    requires n <= |f| && forall c :: 0 <= c < n ==> f[c] >= 0
    ensures |Used(f, n)| <= TotalOf(f, n)
  {
    if n == 0 {
      assert Used(f, 0) == {};
    } else {
      UsedFits(f, n - 1);
      UsedSnoc(f, n - 1);
    }
  }

  // ---- the items of the header ----------------------------------------------------------

  /** How many of the first `n` lengths are not 0. */
  function NonZeros(lens: seq<nat>, n: nat): (r: nat)
    requires n <= |lens|
  {
    if n == 0 then 0 else NonZeros(lens, n - 1) + if lens[n - 1] != 0 then 1 else 0
  }

  lemma RunBound(prev: int, cur: nat, count: nat)
    requires 1 <= count <= MaxCount(prev, cur)
    ensures |RunItems(prev, cur, count)| <= if cur != 0 then count else if count == 138 then 1 else 2
  {
  }

  /** A run of zeros takes at most two items besides those of 138 zeros each, and a run of
      other lengths at most one for each. */
  lemma {:induction false} ItemsBound(lens: seq<nat>, n: nat, prev: int, count: nat)
    requires lens != [] && lens[|lens| - 1] != 0 && n < |lens| && count < MaxCount(prev, lens[n])
    ensures |Items(lens, n, prev, count)|
         <= 3 * (NonZeros(lens, |lens|) - NonZeros(lens, n))
            + if lens[n] == 0 then (count + |lens| - n) / 138 else count + (|lens| - n) / 138 - 2
    decreases |lens| - n
  {
    hide RunItems;
    RunBound(prev, lens[n], count + 1);
    assert NonZeros(lens, n + 1) == NonZeros(lens, n) + if lens[n] != 0 then 1 else 0;
    if n + 1 < |lens| {
      if count + 1 < MaxCount(prev, lens[n]) && lens[n] == lens[n + 1] {
        ItemsBound(lens, n + 1, prev, count + 1);
      } else {
        ItemsBound(lens, n + 1, lens[n], 0);
      }
    }
  }

  /** The lengths in use are those of the used symbols. */
  lemma {:induction false} NonZerosUsed(lens: seq<nat>, f: seq<int>, n: nat)
    requires n <= |lens| <= |f| && forall c :: 0 <= c < n ==> (lens[c] > 0 <==> f[c] != 0)
    ensures NonZeros(lens, n) == |Used(f, n)|
  {
    if n == 0 {
      assert Used(f, 0) == {};
    } else {
      NonZerosUsed(lens, f, n - 1);
      UsedSnoc(f, n - 1);
    }
  }

  predicate NonNegativeTable(f: seq<int>) { forall c :: 0 <= c < |f| ==> f[c] >= 0 }

  /** Two symbols are in use at least. */
  function InUse(f: seq<int>): nat
  {
    var u := |Used(f, |f|)|;
    if u < 2 then 2 else u
  }

  /** Lengths that end with one that is not 0 take few items. */
  lemma TrimmedItems(f: seq<int>, lens: seq<nat>, overflow: int)
    requires 3 <= |f| == |lens| && NonNegativeTable(f) && TreeResult(AtLeastTwo(f), lens, MAX_BITS, overflow)
    ensures |Items(Trim(f, lens), 0, -1, 0)| <= 3 * InUse(f) + |f| / 138
  {
    hide Items, FromMerging, LeastCost, TotalOf, Forced;
    var g, ls := AtLeastTwo(f), Trim(f, lens);
    SomeUsed(f);
    ForcedNonNegative(f, |Used(f, |f|)|);
    NonZerosUsed(ls, g, |ls|);
    assert Used(g, |ls|) <= Used(g, |g|);
    SubsetSize(Used(g, |ls|), Used(g, |g|));
    ItemsBound(ls, 0, -1, 0);
  }

  lemma SomeUsed(f: seq<int>)
    requires |f| >= 3
    ensures |Used(AtLeastTwo(f), |f|)| == InUse(f) && MaxUsed(AtLeastTwo(f), |f|) >= 0
  {
    hide Forced;
    ForcedTotal(f, |Used(f, |f|)|);
    NoneUsed(AtLeastTwo(f));
  }

  lemma NoneUsed(f: seq<int>)
    ensures MaxUsed(f, |f|) < 0 ==> Used(f, |f|) == {}
  {
  }

  // ---- blocks ---------------------------------------------------------------------------

  lemma FibValues()
    ensures Fib(10) == 55 && Fib(18) == 2584 && Fib(19) == 4181
  {
    assert Fib(2) == 1 && Fib(3) == 2 && Fib(4) == 3 && Fib(5) == 5 && Fib(6) == 8 && Fib(7) == 13;
    assert Fib(8) == 21 && Fib(9) == 34 && Fib(10) == 55 && Fib(11) == 89 && Fib(12) == 144;
    assert Fib(13) == 233 && Fib(14) == 377 && Fib(15) == 610 && Fib(16) == 987 && Fib(17) == 1597;
  }

  lemma LightTable(f: seq<int>, syms: seq<nat>, lens: seq<nat>, limit: nat, overflow: int)
    requires |f| >= 3 && IsFrequency(f, syms) && TreeResult(AtLeastTwo(f), lens, limit, overflow)
    requires |syms| + 2 < Fib(limit + 3)
    ensures overflow == 0 && NonNegativeTable(f) && |Used(f, |f|)| <= |syms|
  {
    hide Items, FromMerging, LeastCost, Forced, Fib;
    TotalOfFrequency(f, syms);
    ForcedTotal(f, |Used(f, |f|)|);
    UsedFits(f, |f|);
  }

  /** No tree overflows for a block with at most 2580 tokens that needs at most 16 codes. */
  lemma LightBlock(ts: seq<Token>, t: Trees)
    requires TreesFor(ts, t) && |ts| <= 2580 && InUse(t.lf) + InUse(t.df) <= 16
    ensures !Overflowed(t)
  {
    hide Items, TreeResult, Fib, Forced, TablesFit, TokensOk, Used, InUse;
    FibValues();
    LightTable(t.lf, BlockSyms(t.tables, ts), t.lLens, MAX_BITS, t.ovL);
    LightTable(t.df, DistSyms(t.tables, ts), t.dLens, MAX_BITS, t.ovD);
    TrimmedItems(t.lf, t.lLens, t.ovL);
    TrimmedItems(t.df, t.dLens, t.ovD);
    LightTable(t.bf, Syms(HeaderItems(t)), t.bl, MAX_BL_BITS, t.ovB);
  }

  function Matches(ts: seq<Token>): (n: nat)
    ensures n <= |ts|
  {
    if ts == [] then 0 else Matches(ts[..|ts| - 1]) + if ts[|ts| - 1].Match? then 1 else 0
  }

  lemma {:induction false} DistSymsCount(tb: Tables, ts: seq<Token>)
    requires TablesFit(tb) && TokensOk(ts)
    ensures |DistSyms(tb, ts)| == Matches(ts)
  {
    hide TablesFit;
    if ts != [] {
      DistSymsCount(tb, ts[..|ts| - 1]);
    }
  }

  /** A match stands for three bytes at least. */
  lemma {:induction false} ExpandGrows(ts: seq<Token>, out: seq<int>, o: seq<int>)
    requires TokensOk(ts) && Expand(ts, out) == Some(o)
    ensures |o| >= |out| + |ts| + 2 * Matches(ts)
  {
    if ts != [] {
      ExpandGrows(ts[..|ts| - 1], out, Expand(ts[..|ts| - 1], out).value);
    }
  }

  /** The tokens of a block for at most 13 bytes need at most 16 codes. */
  lemma SmallBlock(ts: seq<Token>, t: Trees)
    requires TreesFor(ts, t) && |ts| + 2 * Matches(ts) <= 13
    ensures !Overflowed(t)
  {
    hide HeaderItems, TreeResult, TablesFit, TokensOk, Used, Fib, Occurs;
    DistSymsCount(t.tables, ts);
    FibValues();
    LightTable(t.lf, BlockSyms(t.tables, ts), t.lLens, MAX_BITS, t.ovL);
    LightTable(t.df, DistSyms(t.tables, ts), t.dLens, MAX_BITS, t.ovD);
    LightBlock(ts, t);
  }

  // ---- inputs with few symbols and repetitions ------------------------------------------

  function Alphabet(input: seq<int>): set<int>
  {
    set i | 0 <= i < |input| :: input[i]
  }

  /** The three bytes at `q` have occurred before. */
  predicate RepeatsAt(input: seq<int>, q: nat) { exists p :: 0 <= p < q && SameThree(input, p, q) }

  predicate SameThree(input: seq<int>, p: nat, q: nat)
    requires p < q
  {
    q + 3 <= |input| && input[p..p + 3] == input[q..q + 3]
  }

  /** At how many of the first `n` places that is so. */
  function Repeats(input: seq<int>, n: nat): nat
  {
    if n == 0 then 0 else Repeats(input, n - 1) + if RepeatsAt(input, n - 1) then 1 else 0
  }

  lemma {:induction false} RepeatsMono(input: seq<int>, m: nat, n: nat)
    requires m <= n
    ensures Repeats(input, m) <= Repeats(input, n)
  {
    if m < n {
      RepeatsMono(input, m, n - 1);
    }
  }

  lemma {:induction false} CopyRepeats(out: seq<int>, len: nat, dist: nat, i: nat)
    requires 1 <= dist <= |out| && |out| <= i < |out| + len
    ensures CopyMatch(out, len, dist)[i] == CopyMatch(out, len, dist)[i - dist]
    decreases len
  {
    var more := out + [out[|out| - dist]];
    if i > |out| {
      CopyRepeats(more, len - 1, dist, i);
    } else {
      assert more <= CopyMatch(more, len - 1, dist);
      assert more[i] == more[i - dist];
    }
  }

  /** A match can only begin where three bytes repeat. */
  lemma MatchRepeats(out: seq<int>, len: nat, dist: nat, input: seq<int>)
    requires 1 <= dist <= |out| && len >= 3 && CopyMatch(out, len, dist) <= input
    ensures RepeatsAt(input, |out|)
  {
    var p, q := |out| - dist, |out|;
    CopyRepeats(out, len, dist, q);
    CopyRepeats(out, len, dist, q + 1);
    CopyRepeats(out, len, dist, q + 2);
    assert SameThree(input, p, q);
  }

  lemma {:induction false} MatchesBound(ts: seq<Token>, out: seq<int>, o: seq<int>, input: seq<int>)
    requires TokensOk(ts) && Expand(ts, out) == Some(o) && o <= input
    ensures |out| <= |o| && Matches(ts) + Repeats(input, |out|) <= Repeats(input, |o|)
  {
    hide RepeatsAt;
    if ts != [] {
      var front, t := ts[..|ts| - 1], ts[|ts| - 1];
      var o1 := Expand(front, out).value;
      MatchesBound(front, out, o1, input);
      if t.Match? {
        MatchRepeats(o1, t.length, t.distance, input);
      }
      RepeatsMono(input, |o1| + 1, |o|);
      assert Repeats(input, |o1| + 1) == Repeats(input, |o1|) + if RepeatsAt(input, |o1|) then 1 else 0;
    }
  }

  /** The length symbols of the matches. */
  function LengthSyms(tb: Tables, ts: seq<Token>): set<int>
    requires TablesFit(tb) && TokensOk(ts)
  {
    if ts == [] then {}
    else LengthSyms(tb, ts[..|ts| - 1]) + if ts[|ts| - 1].Match? then {LitSym(tb, ts[|ts| - 1])} else {}
  }

  lemma {:induction false} LengthSymsFew(tb: Tables, ts: seq<Token>)
    requires TablesFit(tb) && TokensOk(ts)
    ensures |LengthSyms(tb, ts)| <= Matches(ts)
  {
    hide TablesFit, LitSym;
    if ts != [] {
      LengthSymsFew(tb, ts[..|ts| - 1]);
    }
  }

  lemma {:induction false} LitSymsFrom(tb: Tables, ts: seq<Token>, out: seq<int>, o: seq<int>, c: nat)
    requires TablesFit(tb) && TokensOk(ts) && Expand(ts, out) == Some(o) && c in LitSyms(tb, ts)
    ensures c in Alphabet(o) + LengthSyms(tb, ts)
  {
    hide TablesFit;
    var front, t := ts[..|ts| - 1], ts[|ts| - 1];
    var o1 := Expand(front, out).value;
    if c == LitSym(tb, t) {
      assert t.Literal? ==> o[|o| - 1] == c;
    } else {
      LitSymsFrom(tb, front, out, o1, c);
      AlphabetMore(o1, o);
    }
  }

  lemma AlphabetMore(a: seq<int>, b: seq<int>)
    requires a <= b
    ensures Alphabet(a) <= Alphabet(b)
  {
    forall x | x in Alphabet(a)
      ensures x in Alphabet(b)
    {
      var i :| 0 <= i < |a| && a[i] == x;
      assert b[i] == x;
    }
  }

  lemma UnionSize(a: set<int>, b: set<int>)
    ensures |a + b| <= |a| + |b|
  {
    assert a + b == a + (b - a);
    SubsetSize(b - a, b);
  }

  /** The literal/length codes that a block needs. */
  lemma FewLiterals(tb: Tables, lf: seq<int>, ts: seq<Token>, out: seq<int>, o: seq<int>, input: seq<int>)
    requires TablesFit(tb) && TokensOk(ts) && IsFrequency(lf, BlockSyms(tb, ts))
    requires Expand(ts, out) == Some(o) && o <= input
    ensures |Used(lf, |lf|)| <= 1 + |Alphabet(input)| + Matches(ts)
  {
    hide TablesFit, LitSyms, Alphabet, LengthSyms;
    var all := {END_OF_BLOCK} + (Alphabet(input) + LengthSyms(tb, ts));
    forall c | c in Used(lf, |lf|)
      ensures c in all
    {
      OccursOnlyMembers(BlockSyms(tb, ts), c);
      if c != END_OF_BLOCK {
        LitSymsFrom(tb, ts, out, o, c);
        AlphabetMore(o, input);
      }
    }
    SubsetSize(Used(lf, |lf|), all);
    LengthSymsFew(tb, ts);
    UnionSize(Alphabet(input), LengthSyms(tb, ts));
    UnionSize({END_OF_BLOCK}, Alphabet(input) + LengthSyms(tb, ts));
  }

  /** Bytes for which no tree overflows, however they become tokens and blocks: few of them, or
      not many, with few different ones and few places where three bytes repeat. */
  predicate Tame(input: seq<int>)
  {
    var d, r := |Alphabet(input)|, Repeats(input, |input|);
    |input| <= 13 || (|input| <= 2580 && d + 2 * r <= 15 && d + r <= 13)
  }

  lemma TameBlock(ts: seq<Token>, t: Trees, out: seq<int>, o: seq<int>, input: seq<int>)
    requires TreesFor(ts, t) && TokensOk(ts) && Expand(ts, out) == Some(o) && o <= input && Tame(input)
    ensures !Overflowed(t)
  {
    hide HeaderItems, TreeResult, TablesFit, TokensOk, Used, Fib, Occurs, Expand, Alphabet, Repeats;
    ExpandGrows(ts, out, o);
    if |input| <= 13 {
      SmallBlock(ts, t);
    } else {
      MatchesBound(ts, out, o, input);
      RepeatsMono(input, |o|, |input|);
      FewLiterals(t.tables, t.lf, ts, out, o, input);
      DistSymsCount(t.tables, ts);
      FibValues();
      LightTable(t.df, DistSyms(t.tables, ts), t.dLens, MAX_BITS, t.ovD);
      LightBlock(ts, t);
    }
  }

  lemma TameSent(s: Sent, out: seq<int>, o: seq<int>, input: seq<int>)
    requires SentOk(s) && TokensOk(s.tokens) && Expand(s.tokens, out) == Some(o) && o <= input && Tame(input)
    ensures !Overflowed(s.trees)
  {
    hide TreesFor, StaticCostIs, DynamicCostIs, TokensOk, Expand, Tame;
    TameBlock(s.tokens, s.trees, out, o, input);
  }

  lemma {:induction false} TameCovered(blocks: seq<Sent>, input: seq<int>, end: int, whole: seq<int>)
    requires Covered(blocks, input, end) && input <= whole && Tame(whole)
    ensures Intact(blocks)
  {
    hide SentOk, TokensOk, Expand, Overflowed, Intact, Tame;
    if blocks == [] {
      NothingIntact();
    } else {
      var front, s := blocks[..|blocks| - 1], blocks[|blocks| - 1];
      TameCovered(front, input, end - s.storedLen, whole);
      TameSent(s, input[..end - s.storedLen], input[..end], whole);
      IntactSnoc(front, s);
      assert front + [s] == blocks;
    }
  }

  lemma NothingIntact()
    ensures Intact([])
  {
  }

  /** No tree overflows in a run whose tokens stand for tame bytes. */
  lemma TameRun(blocks: seq<Sent>, input: seq<int>, whole: seq<int>)
    requires Complete(blocks, input, whole) && input <= whole && Tame(whole)
    ensures Intact(blocks)
  {
    hide SentOk, TokensOk, Expand, Overflowed, Intact, Covered, Tame;
    var front, s := blocks[..|blocks| - 1], blocks[|blocks| - 1];
    TameCovered(front, input, |input| - s.storedLen, whole);
    TameSent(s, input[..|input| - s.storedLen], whole, whole);
    IntactSnoc(front, s);
    assert front + [s] == blocks;
  }

  // ---- very short runs ------------------------------------------------------------------

  lemma LiteralBits(tb: Tables, t: Token)
    requires TablesFit(tb) && TokenOk(t) && t.Literal?
    ensures Wide(tb.staticL, tb.staticD) && |TokenBits(tb, tb.staticL, tb.staticD, t)| <= 9
    ensures |CodeBits(tb.staticL.fc, tb.staticL.dl, END_OF_BLOCK)| <= 7
  {
    StaticShape(tb, t.byte);
    StaticShape(tb, END_OF_BLOCK);
    hide TablesFit;
  }

  /** Up to three bytes are all literals, of at most 9 bits each with the static trees. */
  lemma {:induction false} FewBits(tb: Tables, ts: seq<Token>, out: seq<int>, o: seq<int>)
    requires TablesFit(tb) && TokensOk(ts) && Wide(tb.staticL, tb.staticD) && Expand(ts, out) == Some(o) && |o| <= 3
    ensures |TokensBits(tb, tb.staticL, tb.staticD, ts)| <= 9 * (|o| - |out|)
  {
    hide TablesFit, TokenBits, Wide;
    if ts != [] {
      var front, t := ts[..|ts| - 1], ts[|ts| - 1];
      FewBits(tb, front, out, Expand(front, out).value);
      if t.Literal? {
        LiteralBits(tb, t);
      }
    }
  }

  /** So few bytes are not worth a stored block. */
  lemma NeverStored(s: Sent, out: seq<int>, o: seq<int>)
    requires SentOk(s) && TokensOk(s.tokens) && Expand(s.tokens, out) == Some(o)
    requires |o| <= 3 && 0 <= s.storedLen <= |o| - |out| <= s.storedLen + 1
    ensures !s.kind.Stored?
  {
    hide TablesFit, TreesFor, DynamicCostIs, TokensBits, CodeBits, TokensOk, Expand;
    FewBits(s.trees.tables, s.tokens, out, o);
    LiteralBits(s.trees.tables, Literal(0));
  }

  lemma ShortRunStatic(blocks: seq<Sent>, input: seq<int>, whole: seq<int>)
    requires Complete(blocks, input, whole) && |input| <= |whole| <= |input| + 1 && |whole| <= 3
    ensures !blocks[|blocks| - 1].kind.Stored?
  {
    hide SentOk, TokensOk, Expand, Covered;
    var s := blocks[|blocks| - 1];
    NeverStored(s, input[..|input| - s.storedLen], whole);
  }
}
