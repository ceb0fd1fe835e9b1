/** A reference decoder for the deflate format, written from RFC 1951 alone. It rejects
    over-subscribed code lengths, references before the start of the output, the unused
    symbols, and anything but less than a byte of padding after the final block. */
module Rfc1951 {
  import opened Bits
  import opened Options
  import opened HuffmanCode

  const END_OF_BLOCK: nat := 256

  // Section 3.2.5.
  const LENGTH_BASE: seq<nat> := [
    3, 4, 5, 6, 7, 8, 9, 10, 11, 13, 15, 17, 19, 23, 27, 31, 35, 43, 51, 59, 67, 83, 99, 115,
    131, 163, 195, 227, 258]
  const LENGTH_EXTRA: seq<nat> := [
    0, 0, 0, 0, 0, 0, 0, 0, 1, 1, 1, 1, 2, 2, 2, 2, 3, 3, 3, 3, 4, 4, 4, 4, 5, 5, 5, 5, 0]
  const DISTANCE_BASE: seq<nat> := [
    1, 2, 3, 4, 5, 7, 9, 13, 17, 25, 33, 49, 65, 97, 129, 193, 257, 385, 513, 769, 1025, 1537,
    2049, 3073, 4097, 6145, 8193, 12289, 16385, 24577]
  const DISTANCE_EXTRA: seq<nat> := [
    0, 0, 0, 0, 1, 1, 2, 2, 3, 3, 4, 4, 5, 5, 6, 6, 7, 7, 8, 8, 9, 9, 10, 10, 11, 11, 12, 12, 13, 13]

  // Section 3.2.7.
  const CODE_LENGTH_ORDER: seq<nat> := [16, 17, 18, 0, 8, 7, 9, 6, 10, 5, 11, 4, 12, 3, 13, 2, 14, 1, 15]

  // ---- elements ---------------------------------------------------------------------

  /** The `n`-bit number at the front of `s`. */
  function ReadBits(s: seq<bool>, n: nat): (r: Option<(nat, seq<bool>)>)
    ensures r.Some? ==> |r.value.1| == |s| - n && r.value.0 < Pow2(n)
  {
    if |s| < n then None else Some((ValueOf(s[..n]), s[n..]))
  }

  /** The first symbol from `n` on whose codeword `s` starts with. */
  function FindSymbol(lens: seq<nat>, s: seq<bool>, n: nat): (r: Option<nat>)
    requires n <= |lens|
    ensures r.Some? ==> r.value < |lens| && lens[r.value] > 0 && Codeword(lens, r.value) <= s
    decreases |lens| - n
  {
    if n == |lens| then None
    else if lens[n] > 0 && Codeword(lens, n) <= s then Some(n)
    else FindSymbol(lens, s, n + 1)
  }

  function ReadSymbol(lens: seq<nat>, s: seq<bool>): (r: Option<(nat, seq<bool>)>)
    ensures r.Some? ==> r.value.0 < |lens| && |r.value.1| < |s|
  {
    var n :- FindSymbol(lens, s, 0);
    Some((n, s[lens[n]..]))
  }

  /** Appends `len` bytes, each the one `dist` back: the source may overlap the target. */
  function CopyMatch(out: seq<int>, len: nat, dist: nat): (r: seq<int>)
    requires 1 <= dist <= |out|
    ensures |r| == |out| + len && out <= r
    decreases len
  {
    if len == 0 then out else CopyMatch(out + [out[|out| - dist]], len - 1, dist)
  }

  // ---- compressed block data, section 3.2.3 -----------------------------------------

  /** The length and distance of a match whose length symbol, `sym`, has been read. */
  function ReadMatch(dd: seq<nat>, sym: nat, s: seq<bool>): (r: Option<(nat, nat, seq<bool>)>)
    ensures r.Some? ==> |r.value.2| < |s| && r.value.1 >= 1
  {
    if sym < 257 || sym > 285 then None else
    var (lx, s1) :- ReadBits(s, LENGTH_EXTRA[sym - 257]);
    var (dsym, s2) :- ReadSymbol(dd, s1);
    if dsym > 29 then None else
    var (dx, s3) :- ReadBits(s2, DISTANCE_EXTRA[dsym]);
    Some((LENGTH_BASE[sym - 257] + lx, DISTANCE_BASE[dsym] + dx, s3))
  }

  function ReadBody(ll: seq<nat>, dd: seq<nat>, s: seq<bool>, out: seq<int>)
    : (r: Option<(seq<int>, seq<bool>)>)
    ensures r.Some? ==> |r.value.1| < |s|
    decreases |s|
  {
    var (sym, s1) :- ReadSymbol(ll, s);
    if sym < END_OF_BLOCK then ReadBody(ll, dd, s1, out + [sym])
    else if sym == END_OF_BLOCK then Some((out, s1))
    else
      var (len, dist, s2) :- ReadMatch(dd, sym, s1);
      if dist > |out| then None else ReadBody(ll, dd, s2, CopyMatch(out, len, dist))
  }

  // ---- fixed codes, section 3.2.6 ---------------------------------------------------

  function Repeat<T>(x: T, n: nat): (r: seq<T>)
    ensures |r| == n && forall i :: 0 <= i < n ==> r[i] == x
  {
    if n == 0 then [] else Repeat(x, n - 1) + [x]
  }

  function FixedLiteralLengths(): (r: seq<nat>)
    ensures |r| == 288
  {
    Repeat(8, 144) + Repeat(9, 112) + Repeat(7, 24) + Repeat(8, 8)
  }

  function FixedDistanceLengths(): (r: seq<nat>)
    ensures |r| == 32
  {
    Repeat(5, 32)
  }

  // ---- dynamic codes, section 3.2.7 -------------------------------------------------

  /** Reads the lengths of the code length code for ranks `[rank, n)`. */
  function ReadCodeLengthLengths(s: seq<bool>, rank: nat, n: nat, lens: seq<nat>)
    : (r: Option<(seq<nat>, seq<bool>)>)
    requires rank <= n <= 19 && |lens| == 19 && Limited(lens, 7)
    ensures r.Some? ==> |r.value.0| == 19 && Limited(r.value.0, 7) && |r.value.1| <= |s|
    decreases n - rank
  {
    if rank == n then Some((lens, s)) else
    var (v, s1) :- ReadBits(s, 3);
    assert Pow2(3) == 8;
    ReadCodeLengthLengths(s1, rank + 1, n, lens[CODE_LENGTH_ORDER[rank] := v])
  }

  /** The lengths that the next code length symbol stands for, after the lengths `acc`. */
  function ReadRun(bl: seq<nat>, s: seq<bool>, acc: seq<nat>): (r: Option<(seq<nat>, seq<bool>)>)
    ensures r.Some? ==> |r.value.1| < |s|
  {
    var (sym, s1) :- ReadSymbol(bl, s);
    if sym < 16 then Some(([sym], s1))
    else if sym == 16 then
      var (n, s2) :- ReadBits(s1, 2);
      if acc == [] then None else Some((Repeat(acc[|acc| - 1], 3 + n), s2))
    else if sym == 17 then
      var (n, s2) :- ReadBits(s1, 3);
      Some((Repeat(0, 3 + n), s2))
    else
      var (n, s2) :- ReadBits(s1, 7);
      Some((Repeat(0, 11 + n), s2))
  }

  /** Reads code lengths until there are `total` of them. */
  function ReadLengths(bl: seq<nat>, s: seq<bool>, acc: seq<nat>, total: nat)
    : (r: Option<(seq<nat>, seq<bool>)>)
    ensures r.Some? ==> |r.value.0| == total && |r.value.1| <= |s|
    decreases |s|
  {
    if |acc| == total then Some((acc, s))
    else if |acc| > total then None
    else
      var (run, s1) :- ReadRun(bl, s, acc);
      ReadLengths(bl, s1, acc + run, total)
  }

  /** The literal/length and distance code lengths that precede a dynamic block's data. */
  function ReadTrees(s: seq<bool>): (r: Option<(seq<nat>, seq<nat>, seq<bool>)>)
    ensures r.Some? ==> |r.value.2| <= |s|
  {
    var (hlit, s1) :- ReadBits(s, 5);
    var (hdist, s2) :- ReadBits(s1, 5);
    var (hclen, s3) :- ReadBits(s2, 4);
    assert Pow2(4) == 16;
    var (bl, s4) :- ReadCodeLengthLengths(s3, 0, hclen + 4, Repeat(0, 19));
    if !ValidLengths(bl) then None else
    var (lens, s5) :- ReadLengths(bl, s4, [], hlit + 257 + hdist + 1);
    var ll, dd := lens[..hlit + 257], lens[hlit + 257..];
    if ValidLengths(ll) && ValidLengths(dd) then Some((ll, dd, s5)) else None
  }

  // ---- blocks, section 3.2.3 --------------------------------------------------------

  /** A stored block (section 3.2.4). The stream is a whole number of bytes, so what is
      left of the current byte is the remaining bit count modulo eight. */
  function ReadStored(s: seq<bool>, out: seq<int>): (r: Option<(seq<int>, seq<bool>)>)
    ensures r.Some? ==> |r.value.1| <= |s|
  {
    var (len, s1) :- ReadBits(s[|s| % 8..], 16);
    var (nlen, s2) :- ReadBits(s1, 16);
    if nlen != 0xffff - len || |s2| < 8 * len then None
    else Some((out + BitsToBytes(s2[..8 * len]), s2[8 * len..]))
  }

  function BitsToBytes(s: seq<bool>): (r: seq<int>)
    requires |s| % 8 == 0
    ensures |r| == |s| / 8
  {
    if s == [] then [] else [ValueOf(s[..8])] + BitsToBytes(s[8..])
  }

  function ReadBlock(kind: nat, s: seq<bool>, out: seq<int>): (r: Option<(seq<int>, seq<bool>)>)
    ensures r.Some? ==> |r.value.1| <= |s|
  {
    match kind
    case 0 => ReadStored(s, out)
    case 1 => ReadBody(FixedLiteralLengths(), FixedDistanceLengths(), s, out)
    case 2 =>
      var (ll, dd, s1) :- ReadTrees(s);
      ReadBody(ll, dd, s1, out)
    case _ => None
  }

  /** The blocks from here to the end of the stream, appended to `out`. */
  function InflateBits(s: seq<bool>, out: seq<int>): Option<seq<int>>
    decreases |s|
  {
    var (final, s1) :- ReadBits(s, 1);
    var (kind, s2) :- ReadBits(s1, 2);
    var (out1, s3) :- ReadBlock(kind, s2, out);
    if final == 0 then InflateBits(s3, out1)
    else if |s3| < 8 then Some(out1) else None
  }

  function Inflate(bytes: seq<int>): Option<seq<int>>
    requires Bytes(bytes)
  {
    InflateBits(BytesToBits(bytes), [])
  }

  // ---- what the reader does on what a writer wrote ----------------------------------

  lemma ReadBitsOf(v: nat, n: nat, rest: seq<bool>)
    requires v < Pow2(n)
    ensures ReadBits(BitsOf(v, n) + rest, n) == Some((v, rest))
  {
    ValueOfBitsOf(v, n);
    assert (BitsOf(v, n) + rest)[..n] == BitsOf(v, n);
    assert (BitsOf(v, n) + rest)[n..] == rest;
  }

  lemma {:induction false} FindSymbolUnique(lens: seq<nat>, s: seq<bool>, n: nat, sym: nat)
    requires ValidLengths(lens) && n <= sym < |lens| && lens[sym] > 0
    requires Codeword(lens, sym) <= s
    ensures FindSymbol(lens, s, n) == Some(sym)
    decreases |lens| - n
  {
    if lens[n] > 0 && Codeword(lens, n) <= s {
      var a, b := Codeword(lens, n), Codeword(lens, sym);
      if |a| <= |b| {
        assert a == s[..|a|] && b == s[..|b|];
        assert a <= b;
        PrefixFree(lens, n, sym);
      } else {
        assert a == s[..|a|] && b == s[..|b|];
        assert b <= a;
        PrefixFree(lens, sym, n);
      }
    } else if n < sym {
      FindSymbolUnique(lens, s, n + 1, sym);
    }
  }

  /** A codeword is read back as its symbol, whatever follows it. */
  lemma ReadCodeword(lens: seq<nat>, sym: nat, rest: seq<bool>)
    requires ValidLengths(lens) && sym < |lens| && lens[sym] > 0
    ensures ReadSymbol(lens, Codeword(lens, sym) + rest) == Some((sym, rest))
  {
    var c := Codeword(lens, sym);
    FindSymbolUnique(lens, c + rest, 0, sym);
    assert (c + rest)[lens[sym]..] == rest;
  }
}
