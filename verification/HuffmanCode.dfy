/** Canonical Huffman codes, section 3.2.2 of RFC 1951: a code is given by its lengths
    alone, and it is a prefix code when the Kraft sum of the lengths is at most one. */
module HuffmanCode {
  import opened Bits

  const MAX_BITS: nat := 15

  /** How many of the first `k` symbols have length `len`. */
  function Rank(lens: seq<nat>, k: nat, len: nat): (r: nat)
    requires k <= |lens|
    ensures r <= k
  {
    if k == 0 then 0 else Rank(lens, k - 1, len) + if lens[k - 1] == len then 1 else 0
  }

  function Count(lens: seq<nat>, len: nat): nat { Rank(lens, |lens|, len) }

  /** Step 2 of section 3.2.2: the smallest code of each length. */
  function FirstCode(lens: seq<nat>, len: nat): nat
  {
    if len <= 1 then 0 else 2 * (FirstCode(lens, len - 1) + Count(lens, len - 1))
  }

  /** Step 3 of section 3.2.2: codes of one length are consecutive, in symbol order. */
  function Code(lens: seq<nat>, n: nat): nat
    requires n < |lens|
  {
    FirstCode(lens, lens[n]) + Rank(lens, n, lens[n])
  }

  /** The code of symbol `n` as it appears in the stream: most significant bit first. */
  function Codeword(lens: seq<nat>, n: nat): (r: seq<bool>)
    requires n < |lens|
    ensures |r| == lens[n]
  {
    Reversed(BitsOf(Code(lens, n), lens[n]))
  }

  predicate Limited(lens: seq<nat>, max: nat) { forall i :: 0 <= i < |lens| ==> lens[i] <= max }

  /** The Kraft sum of the first `k` lengths in units of 2^-max. */
  function KraftOf(lens: seq<nat>, k: nat, max: nat): nat
    requires k <= |lens| && Limited(lens, max)
  {
    if k == 0 then 0
    else KraftOf(lens, k - 1, max) + if lens[k - 1] == 0 then 0 else Pow2(max - lens[k - 1])
  }

  function Kraft(lens: seq<nat>, max: nat): nat
    requires Limited(lens, max)
  {
    KraftOf(lens, |lens|, max)
  }

  /** The lengths describe a code that is not over-subscribed. */
  predicate ValidLengths(lens: seq<nat>)
  {
    Limited(lens, MAX_BITS) && Kraft(lens, MAX_BITS) <= Pow2(MAX_BITS)
  }

  // ---- the Kraft sum, length by length ----------------------------------------------

  function KraftByLength(lens: seq<nat>, k: nat, max: nat, len: nat): nat
    requires k <= |lens| && len <= max
  {
    if len == 0 then 0
    else KraftByLength(lens, k, max, len - 1) + Shl(Rank(lens, k, len), max - len)
  }

  lemma {:induction false} KraftByLengthStep(lens: seq<nat>, k: nat, max: nat, len: nat)
    requires 0 < k <= |lens| && len <= max
    ensures KraftByLength(lens, k, max, len)
         == KraftByLength(lens, k - 1, max, len)
          + if 0 < lens[k - 1] <= len then Pow2(max - lens[k - 1]) else 0
  {
    if len != 0 {
      KraftByLengthStep(lens, k, max, len - 1);
      if lens[k - 1] == len {
        ShlAdd(Rank(lens, k - 1, len), 1, max - len);
        ShlPow2(0, max - len);
      }
    }
  }

  lemma {:induction false} KraftByLengthZero(lens: seq<nat>, max: nat, len: nat)
    requires len <= max
    ensures KraftByLength(lens, 0, max, len) == 0
  {
    if len != 0 {
      ShlAdd(0, 0, max - len);
      KraftByLengthZero(lens, max, len - 1);
    }
  }

  /** Summing over symbols or over lengths gives the same Kraft sum. */
  lemma {:induction false} KraftByLengthTotal(lens: seq<nat>, k: nat, max: nat)
    requires k <= |lens| && Limited(lens, max)
    ensures KraftByLength(lens, k, max, max) == KraftOf(lens, k, max)
  {
    if k == 0 {
      KraftByLengthZero(lens, max, max);
    } else {
      KraftByLengthStep(lens, k, max, max);
      KraftByLengthTotal(lens, k - 1, max);
    }
  }

  lemma {:induction false} KraftByLengthMono(lens: seq<nat>, max: nat, a: nat, b: nat)
    requires a <= b <= max
    ensures KraftByLength(lens, |lens|, max, a) <= KraftByLength(lens, |lens|, max, b)
  {
    if a < b {
      KraftByLengthMono(lens, max, a, b - 1);
    }
  }

  /** The first code of each length is the Kraft sum of all shorter codes. */
  lemma {:induction false} FirstCodeIsKraft(lens: seq<nat>, max: nat, len: nat)
    requires 0 < len <= max
    ensures Shl(FirstCode(lens, len), max - len)
         == KraftByLength(lens, |lens|, max, len - 1)
  {
    if len > 1 {
      FirstCodeIsKraft(lens, max, len - 1);
      var f, c := FirstCode(lens, len - 1), Count(lens, len - 1);
      ShlShl(f + c, 1, max - len);
      ShlAdd(f, c, max - len + 1);
      assert Shl(f + c, 1) == 2 * (f + c);
    } else {
      ShlAdd(0, 0, max - len);
    }
  }

  lemma {:induction false} RankMono(lens: seq<nat>, a: nat, b: nat, len: nat)
    requires a <= b <= |lens|
    ensures Rank(lens, a, len) <= Rank(lens, b, len)
  {
    if a < b {
      RankMono(lens, a, b - 1, len);
    }
  }

  /** Under Kraft's inequality the codes of one length, all consecutive, still fit it. */
  lemma CodesOfLengthFit(lens: seq<nat>, len: nat)
    requires ValidLengths(lens) && 0 < len <= MAX_BITS
    ensures FirstCode(lens, len) + Count(lens, len) <= Pow2(len)
  {
    hide FirstCode, Rank, Shl, Pow2;
    var f, c, max := FirstCode(lens, len), Count(lens, len), MAX_BITS;
    assert Shl(f + c, max - len) == KraftByLength(lens, |lens|, max, len) by {
      ShlAdd(f, c, max - len);
      FirstCodeIsKraft(lens, max, len);
    }
    assert KraftByLength(lens, |lens|, max, len) <= Pow2(max) by {
      KraftByLengthMono(lens, max, len, max);
      KraftByLengthTotal(lens, |lens|, max);
    }
    ShlPow2(len, max - len);
    ShlMono(f + c, Pow2(len), max - len);
  }

  lemma CodeFits(lens: seq<nat>, n: nat)
    requires ValidLengths(lens) && n < |lens| && lens[n] > 0
    ensures Code(lens, n) < FirstCode(lens, lens[n]) + Count(lens, lens[n]) <= Pow2(lens[n])
  {
    RankMono(lens, n + 1, |lens|, lens[n]);
    CodesOfLengthFit(lens, lens[n]);
  }

  /** Codes of a longer length start above every extension of a shorter one. */
  lemma {:induction false} LongerCodesAbove(lens: seq<nat>, a: nat, b: nat)
    requires 0 < a < b
    ensures FirstCode(lens, b) >= Shl(FirstCode(lens, a) + Count(lens, a), b - a)
  {
    if b > a + 1 {
      LongerCodesAbove(lens, a, b - 1);
    } else {
      assert Shl(FirstCode(lens, a) + Count(lens, a), 1) == 2 * (FirstCode(lens, a) + Count(lens, a));
    }
  }

  lemma {:induction false} RankStrict(lens: seq<nat>, i: nat, j: nat)
    requires i < j < |lens| && lens[i] == lens[j]
    ensures Rank(lens, i, lens[i]) < Rank(lens, j, lens[i])
  {
    RankMono(lens, i + 1, j, lens[i]);
  }

  /** If one codeword is a prefix of another then the longer code, shifted down, is the
      shorter one. */
  lemma PrefixMeansShift(x: nat, a: nat, y: nat, b: nat)
    requires a <= b && x < Pow2(a) && y < Pow2(b)
    requires Reversed(BitsOf(x, a)) <= Reversed(BitsOf(y, b))
    ensures y < Shl(x + 1, b - a)
    ensures a == b ==> x == y
  {
    var v := BitsOf(y, b);
    PrefixMeansSuffix(BitsOf(x, a), v);
    ValueOfBitsOf(x, a);
    ValueOfBitsOf(y, b);
    assert v == v[..b - a] + v[b - a..];
    ValueOfConcat(v[..b - a], v[b - a..]);
    ShlAdd(x, 1, b - a);
    ShlPow2(0, b - a);
  }

  lemma PrefixMeansSuffix(u: seq<bool>, v: seq<bool>)
    requires |u| <= |v| && Reversed(u) <= Reversed(v)
    ensures v[|v| - |u|..] == u
  {
    forall i | 0 <= i < |u|
      ensures v[|v| - |u|..][i] == u[i]
    {
      assert Reversed(u)[|u| - 1 - i] == Reversed(v)[|u| - 1 - i];
    }
  }

  /** A shorter codeword is not a prefix of a longer one. */
  lemma ShorterIsNoPrefix(lens: seq<nat>, i: nat, j: nat)
    requires ValidLengths(lens)
    requires i < |lens| && j < |lens| && 0 < lens[i] < lens[j]
    ensures !(Codeword(lens, i) <= Codeword(lens, j))
  {
    hide FirstCode, Count, KraftOf;
    CodeFits(lens, i);
    CodeFits(lens, j);
    if Codeword(lens, i) <= Codeword(lens, j) {
      var a, b := lens[i], lens[j];
      PrefixMeansShift(Code(lens, i), a, Code(lens, j), b);
      LongerCodesAbove(lens, a, b);
      ShlMono(Code(lens, i) + 1, FirstCode(lens, a) + Count(lens, a), b - a);
    }
  }

  lemma SameLengthCodesDiffer(lens: seq<nat>, i: nat, j: nat)
    requires ValidLengths(lens)
    requires i < j < |lens| && lens[i] > 0 && lens[i] == lens[j]
    ensures Codeword(lens, i) != Codeword(lens, j)
  {
    CodeFits(lens, i);
    CodeFits(lens, j);
    RankStrict(lens, i, j);
    if Codeword(lens, i) == Codeword(lens, j) {
      PrefixMeansShift(Code(lens, i), lens[i], Code(lens, j), lens[j]);
    }
  }

  /** No codeword is a prefix of another. */
  lemma PrefixFree(lens: seq<nat>, i: nat, j: nat)
    requires ValidLengths(lens)
    requires i < |lens| && j < |lens| && lens[i] > 0 && lens[j] > 0
    requires Codeword(lens, i) <= Codeword(lens, j)
    ensures i == j
  {
    if lens[i] < lens[j] {
      ShorterIsNoPrefix(lens, i, j);
    } else if i < j {
      SameLengthCodesDiffer(lens, i, j);
    } else if j < i {
      SameLengthCodesDiffer(lens, j, i);
    }
  }
}
