/** The compressor's state between tokens, and what its tokens stand for so far. */
module Lz77 {
  import opened Bits
  import opened Options
  import opened Rfc1951
  import opened Chains
  import opened Tokens

  /** The `len` bytes at `p` repeat those at `m`, and a token can say so. */
  predicate IsMatch(input: seq<int>, m: int, p: int, len: nat)
  {
    0 <= m < p && p - m <= MAX_DIST && MIN_MATCH <= len <= MAX_MATCH && SameRun(input, m, p, len)
  }

  /** Copying a match, overlap and all, gives the next bytes of the input. */
  lemma {:induction false} CopyIsInput(input: seq<int>, m: nat, p: nat, len: nat, k: nat)
    requires SameRun(input, m, p, len) && k <= len
    ensures CopyMatch(input[..p + len - k], k, p - m) == input[..p + len]
    decreases k
  {
    if k != 0 {
      var at := p + len - k;
      assert SameByte(input, m, p, len - k);
      assert input[..at][at - (p - m)] == input[m + (len - k)] == input[at];
      assert input[..at] + [input[at]] == input[..at + 1];
      CopyIsInput(input, m, p, len, k - 1);
    }
  }

  /** The tokens stand for the input from `b` to `t`. */
  ghost predicate Covers(ts: seq<Token>, input: seq<int>, b: int, t: int)
  {
    0 <= b <= t <= |input| && TokensOk(ts) && Expand(ts, input[..b]) == Some(input[..t])
  }

  lemma CoverNothing(input: seq<int>, b: int)
    requires 0 <= b <= |input|
    ensures Covers([], input, b, b)
  {
  }

  lemma CoverLiteral(ts: seq<Token>, input: seq<int>, b: int, t: int)
    requires Covers(ts, input, b, t) && t < |input| && IsByte(input[t])
    ensures Covers(ts + [Literal(input[t])], input, b, t + 1)
  {
    ExpandSnoc(ts, Literal(input[t]), input[..b], input[..t]);
    assert input[..t] + [input[t]] == input[..t + 1];
  }

  lemma CoverMatch(ts: seq<Token>, input: seq<int>, b: int, t: int, m: int, len: nat)
    requires Covers(ts, input, b, t) && IsMatch(input, m, t, len)
    ensures Covers(ts + [Match(len, t - m)], input, b, t + len)
  {
    ExpandSnoc(ts, Match(len, t - m), input[..b], input[..t]);
    CopyIsInput(input, m, t, len, len);
  }
}
