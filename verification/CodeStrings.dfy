/** The code bit strings (`zip_gen_codes`, `zip_bi_reverse`). */
module CodeStrings {
  import opened Bits
  import opened HuffmanCode
  import opened BitLengths

  lemma {:induction false} BitsOfSnoc(v: nat, n: nat)
    ensures BitsOf(v, n + 1) == BitsOf(v, n) + [Shr(v, n) % 2 == 1]
  {
    if n != 0 {
      BitsOfSnoc(v / 2, n - 1);
    }
  }

  lemma {:induction false} ReversedSnoc(s: seq<bool>, b: bool)
    ensures Reversed(s + [b]) == [b] + Reversed(s)
  {
    if s != [] {
      assert (s + [b])[1..] == s[1..] + [b];
      ReversedSnoc(s[1..], b);
    }
  }

  lemma ReverseOneMore(v: nat, n: nat)
    ensures ReverseBits(v, n + 1) == Shr(v, n) % 2 + 2 * ReverseBits(v, n)
  {
    BitsOfSnoc(v, n);
    ReversedSnoc(BitsOf(v, n), Shr(v, n) % 2 == 1);
    var r := [Shr(v, n) % 2 == 1] + Reversed(BitsOf(v, n));
    assert r[1..] == Reversed(BitsOf(v, n));
  }

  lemma {:induction false} ShrOneMore(v: nat, n: nat)
    ensures Shr(v, n + 1) == Shr(v, n) / 2
  {
    if n != 0 {
      ShrOneMore(v / 2, n - 1);
    }
  }

  /** `zip_bi_reverse`: the first `len` bits of `code`, in the opposite order. */
  method BiReverse(code: nat, len: nat) returns (r: nat)
    requires len >= 1
    ensures r == ReverseBits(code, len)
  {
    var res, c, left := 0, code, len;
    while true
      invariant 0 < left <= len
      invariant c == Shr(code, len - left) && res == 2 * ReverseBits(code, len - left)
      decreases left
    {
      ReverseOneMore(code, len - left);
      ShrOneMore(code, len - left);
      BitOrEven(res / 2, c % 2);
      res := BitOr(res, c % 2);
      c := c / 2;
      res := 2 * res;
      left := left - 1;
      if left <= 0 {
        break;
      }
    }
    r := res / 2;
  }

  lemma BitOrEven(x: nat, b: nat)
    requires b < 2
    ensures BitOr(2 * x, b) == 2 * x + b
  {
  }

  /** The first code of each length, as running from the statistics. */
  function NextCode(cnt: seq<int>, len: nat): int
    requires len < |cnt|
  {
    if len == 0 then 0 else 2 * (NextCode(cnt, len - 1) + cnt[len - 1])
  }

  lemma {:induction false} NextCodeIsFirst(cnt: seq<int>, lens: seq<nat>, len: nat)
    requires Counts(cnt, lens) && len <= MAX_BITS
    ensures NextCode(cnt, len) == FirstCode(lens, len)
  {
    if len > 1 {
      NextCodeIsFirst(cnt, lens, len - 1);
    } else if len == 1 {
      assert NextCode(cnt, 0) == 0;
    }
  }

  lemma {:induction false} NextCodeNonNegative(cnt: seq<int>, len: nat)
    requires len < |cnt| && forall b :: 0 <= b < |cnt| ==> cnt[b] >= 0
    ensures NextCode(cnt, len) >= 0
  {
    if len != 0 {
      NextCodeNonNegative(cnt, len - 1);
    }
  }

  /** The code `zip_gen_codes` gives symbol `n`, before reversal. */
  function Assigned(cnt: seq<int>, lens: seq<nat>, n: nat): int
    requires n < |lens| && lens[n] < |cnt|
  {
    NextCode(cnt, lens[n]) + Rank(lens, n, lens[n])
  }

  method FirstCodes(blCount: array<int>) returns (nextCode: array<int>)
    requires blCount.Length == MAX_BITS + 1 && forall b :: 0 <= b <= MAX_BITS ==> blCount[b] >= 0
    ensures fresh(nextCode) && nextCode.Length == MAX_BITS + 1
    ensures forall b :: 1 <= b <= MAX_BITS ==> nextCode[..][b] == NextCode(blCount[..], b) >= 0
  {
    nextCode := new int[MAX_BITS + 1];
    var code := 0;
    var bits := 1;
    while bits <= MAX_BITS
      invariant 1 <= bits <= MAX_BITS + 1
      invariant code == NextCode(blCount[..], bits - 1)
      invariant forall b :: 1 <= b < bits ==> nextCode[b] == NextCode(blCount[..], b) >= 0
    {
      NextCodeNonNegative(blCount[..], bits);
      code := 2 * (code + blCount[bits - 1]);
      nextCode[bits] := code;
      bits := bits + 1;
    }
  }

  /** `next[b]` is the code the next symbol of length `b` will get, `n` symbols in. */
  predicate Running(next: seq<int>, cnt: seq<int>, lens: seq<nat>, n: nat)
    requires n <= |lens| && |cnt| == MAX_BITS + 1
  {
    && |next| == MAX_BITS + 1
    && (forall b {:trigger next[b]} :: 1 <= b <= MAX_BITS ==> next[b] == NextCode(cnt, b) + Rank(lens, n, b) >= 0)
  }

  lemma RunningStart(next: seq<int>, cnt: seq<int>, lens: seq<nat>)
    requires |next| == |cnt| == MAX_BITS + 1 && forall b :: 1 <= b <= MAX_BITS ==> next[b] == NextCode(cnt, b) >= 0
    ensures Running(next, cnt, lens, 0)
  {
    hide NextCode;
  }

  lemma RunningStep(next: seq<int>, cnt: seq<int>, lens: seq<nat>, n: nat)
    requires n < |lens| && |cnt| == MAX_BITS + 1 && Running(next, cnt, lens, n) && lens[n] <= MAX_BITS
    ensures Running(if lens[n] == 0 then next else next[lens[n] := next[lens[n]] + 1], cnt, lens, n + 1)
  {
    hide NextCode;
    var after := if lens[n] == 0 then next else next[lens[n] := next[lens[n]] + 1];
    forall b | 1 <= b <= MAX_BITS
      ensures after[b] == NextCode(cnt, b) + Rank(lens, n + 1, b) >= 0
    {
      assert next[b] == NextCode(cnt, b) + Rank(lens, n, b) >= 0;
    }
  }

  /** The first `n` symbols that have a length have their code, reversed; nothing else
      differs from `fc0`. */
  predicate CodesSet(fc: seq<int>, fc0: seq<int>, cnt: seq<int>, lens: seq<nat>, n: nat)
    requires n <= |lens| && |cnt| == MAX_BITS + 1 && Limited(lens, MAX_BITS)
  {
    && |lens| <= |fc| == |fc0|
    && (forall k {:trigger fc[k]} {:trigger Assigned(cnt, lens, k)} :: 0 <= k < n && lens[k] > 0 ==>
          Assigned(cnt, lens, k) >= 0 && fc[k] == ReverseBits(Assigned(cnt, lens, k), lens[k]))
    && (forall k {:trigger fc[k]} :: 0 <= k < |fc| && !(k < n && lens[k] > 0) ==> fc[k] == fc0[k])
  }

  lemma CodesSetFits(fc: seq<int>, fc0: seq<int>, cnt: seq<int>, lens: seq<nat>, n: nat)
    requires n <= |lens| && |cnt| == MAX_BITS + 1 && Limited(lens, MAX_BITS) && CodesSet(fc, fc0, cnt, lens, n)
    ensures |lens| <= |fc|
  {
  }

  lemma CodesSetStep(fc: seq<int>, fc0: seq<int>, cnt: seq<int>, lens: seq<nat>, n: nat, next: seq<int>, r: int)
    requires n < |lens| && |cnt| == MAX_BITS + 1 && Limited(lens, MAX_BITS) && CodesSet(fc, fc0, cnt, lens, n)
    requires Running(next, cnt, lens, n)
    requires lens[n] == 0 ==> r == fc[n]
    requires lens[n] > 0 ==> r == ReverseBits(next[lens[n]], lens[n])
    ensures CodesSet(fc[n := r], fc0, cnt, lens, n + 1)
  {
    assert lens[n] > 0 ==> Assigned(cnt, lens, n) == next[lens[n]];
    var g := fc[n := r];
    forall k | 0 <= k < n + 1 && lens[k] > 0
      ensures Assigned(cnt, lens, k) >= 0 && g[k] == ReverseBits(Assigned(cnt, lens, k), lens[k])
    {
      assert k != n ==> g[k] == fc[k];
    }
    forall k | 0 <= k < |g| && !(k < n + 1 && lens[k] > 0)
      ensures g[k] == fc0[k]
    {
      assert fc[k] == fc0[k];
    }
    assert CodesSet(g, fc0, cnt, lens, n + 1);
  }

  /** `zip_gen_codes`: whatever the statistics are, every symbol with a length gets a value
      of that many bits, its assigned code reversed. */
  method GenCodes(fc: array<int>, dl: array<int>, maxCode: int, blCount: array<int>, ghost lens: seq<nat>)
    requires fc != dl && fc != blCount
    requires -1 <= maxCode < |lens| <= fc.Length && |lens| <= dl.Length
    requires dl[..|lens|] == lens && Limited(lens, MAX_BITS)
    requires blCount.Length == MAX_BITS + 1 && forall b :: 0 <= b <= MAX_BITS ==> blCount[b] >= 0
    modifies fc
    ensures CodesSet(fc[..], old(fc[..]), blCount[..], lens, maxCode + 1)
  {
    ghost var cnt, fc0 := blCount[..], fc[..];
    var nextCode := FirstCodes(blCount);
    assert blCount[..] == cnt;
    var n := 0;
    RunningStart(nextCode[..], cnt, lens);
    while n <= maxCode
      invariant 0 <= n <= maxCode + 1
      invariant dl[..|lens|] == lens && Running(nextCode[..], cnt, lens, n)
      invariant CodesSet(fc[..], fc0, cnt, lens, n)
    {
      assert dl[n] == dl[..|lens|][n] == lens[n];
      GenCode(fc, n, dl[n], nextCode, cnt, fc0, lens);
      n := n + 1;
    }
  }

  method GenCode(fc: array<int>, n: nat, len: nat, nextCode: array<int>,
                 ghost cnt: seq<int>, ghost fc0: seq<int>, ghost lens: seq<nat>)
    requires fc != nextCode && n < |lens| && len == lens[n]
    requires |cnt| == MAX_BITS + 1 && Limited(lens, MAX_BITS)
    requires Running(nextCode[..], cnt, lens, n) && CodesSet(fc[..], fc0, cnt, lens, n)
    modifies fc, nextCode
    ensures Running(nextCode[..], cnt, lens, n + 1) && CodesSet(fc[..], fc0, cnt, lens, n + 1)
  {
    hide CodesSet, ReverseBits, NextCode;
    ghost var next, f := nextCode[..], fc[..];
    CodesSetFits(f, fc0, cnt, lens, n);
    RunningStep(next, cnt, lens, n);
    if len == 0 {
      CodesSetStep(f, fc0, cnt, lens, n, next, f[n]);
      assert f[n := f[n]] == f;
      return;
    }
    var r := BiReverse(nextCode[len], len);
    CodesSetStep(f, fc0, cnt, lens, n, next, r);
    fc[n] := r;
    nextCode[len] := nextCode[len] + 1;
    assert fc[..] == f[n := r];
    assert nextCode[..] == next[len := next[len] + 1];
  }

  /** With consistent statistics the stored values, sent least significant bit first, are
      the canonical codewords. */
  lemma CodesAreCanonical(cnt: seq<int>, lens: seq<nat>, n: nat)
    requires Counts(cnt, lens) && Limited(lens, MAX_BITS) && n < |lens| && lens[n] > 0
    ensures Assigned(cnt, lens, n) == Code(lens, n)
    ensures BitsOf(ReverseBits(Code(lens, n), lens[n]), lens[n]) == Codeword(lens, n)
  {
    NextCodeIsFirst(cnt, lens, lens[n]);
    BitsOfValueOf(Reversed(BitsOf(Code(lens, n), lens[n])));
  }

  /** The codes that `zip_gen_codes` stores are prefix free, for lengths that fit the code
      space and statistics that are those of the lengths. */
  lemma StoredCodesPrefixFree(fc: seq<int>, fc0: seq<int>, cnt: seq<int>, lens: seq<nat>, i: nat, j: nat)
    requires Counts(cnt, lens) && ValidLengths(lens) && CodesSet(fc, fc0, cnt, lens, |lens|)
    requires i < |lens| && j < |lens| && lens[i] > 0 && lens[j] > 0
    ensures 0 <= fc[i] < Pow2(lens[i]) && 0 <= fc[j] < Pow2(lens[j])
    ensures BitsOf(fc[i], lens[i]) <= BitsOf(fc[j], lens[j]) ==> i == j
  {
    StoredCode(fc, fc0, cnt, lens, i);
    StoredCode(fc, fc0, cnt, lens, j);
    if BitsOf(fc[i], lens[i]) <= BitsOf(fc[j], lens[j]) {
      PrefixFree(lens, i, j);
    }
  }

  lemma StoredCode(fc: seq<int>, fc0: seq<int>, cnt: seq<int>, lens: seq<nat>, n: nat)
    requires Counts(cnt, lens) && Limited(lens, MAX_BITS) && CodesSet(fc, fc0, cnt, lens, |lens|)
    requires n < |lens| && lens[n] > 0
    ensures 0 <= fc[n] < Pow2(lens[n]) && BitsOf(fc[n], lens[n]) == Codeword(lens, n)
  {
    CodesAreCanonical(cnt, lens, n);
    assert fc[n] == ReverseBits(Assigned(cnt, lens, n), lens[n]);
    hide CodesSet, Codeword, NextCode;
  }
}
