/** Bit-level arithmetic on naturals: the shifts, masks, `|` and `^` of the encoder, and
    bit strings written least-significant bit first (section 3.1.1 of RFC 1951). */
module Bits {
  function Min(a: int, b: int): int { if a <= b then a else b }

  function Pow2(n: nat): (r: nat)
    ensures r >= 1
  {
    if n == 0 then 1 else 2 * Pow2(n - 1)
  }

  lemma {:induction false} Pow2Mono(a: nat, b: nat)
    requires a <= b
    ensures Pow2(a) <= Pow2(b)
  {
    if a < b {
      Pow2Mono(a, b - 1);
    }
  }

  /** `v << n` */
  function Shl(v: nat, n: nat): nat { if n == 0 then v else 2 * Shl(v, n - 1) }

  /** `v >> n` */
  function Shr(v: nat, n: nat): nat { if n == 0 then v else Shr(v / 2, n - 1) }

  lemma {:induction false} ShlAdd(a: nat, b: nat, n: nat)
    ensures Shl(a + b, n) == Shl(a, n) + Shl(b, n)
  {
    if n != 0 {
      ShlAdd(a, b, n - 1);
    }
  }

  lemma {:induction false} ShlShl(v: nat, a: nat, b: nat)
    ensures Shl(Shl(v, a), b) == Shl(v, a + b)
  {
    if b != 0 {
      ShlShl(v, a, b - 1);
    }
  }

  lemma {:induction false} ShlPow2(a: nat, b: nat)
    ensures Shl(Pow2(a), b) == Pow2(a + b)
  {
    if b != 0 {
      ShlPow2(a, b - 1);
    }
  }

  lemma {:induction false} ShlMono(a: nat, b: nat, n: nat)
    ensures a <= b <==> Shl(a, n) <= Shl(b, n)
  {
    if n != 0 {
      ShlMono(a, b, n - 1);
    }
  }

  lemma {:induction false} ShrShl(low: nat, v: nat, n: nat, k: nat)
    requires low < Pow2(n)
    ensures Shr(low + Shl(v, n), n + k) == Shr(v, k)
  {
    if n != 0 {
      assert (low + Shl(v, n)) / 2 == low / 2 + Shl(v, n - 1);
      ShrShl(low / 2, v, n - 1, k);
    }
  }

  lemma {:induction false} ShrFits(v: nat, n: nat, m: nat)
    requires v < Pow2(n + m)
    ensures Shr(v, n) < Pow2(m)
  {
    if n != 0 {
      ShrFits(v / 2, n - 1, m);
    }
  }

  lemma {:induction false} ShlFits(low: nat, n: nat, v: nat, m: nat)
    requires low < Pow2(n) && v < Pow2(m)
    ensures low + Shl(v, n) < Pow2(n + m)
  {
    if n != 0 {
      ShlFits(low / 2, n - 1, v, m);
    }
  }

  /** The low `n` bits of `v`, least significant first. */
  function BitsOf(v: nat, n: nat): (r: seq<bool>)
    ensures |r| == n
  {
    if n == 0 then [] else [v % 2 == 1] + BitsOf(v / 2, n - 1)
  }

  /** The number whose bits, least significant first, are `b`. */
  function ValueOf(b: seq<bool>): (r: nat)
    ensures r < Pow2(|b|)
  {
    if b == [] then 0 else (if b[0] then 1 else 0) + 2 * ValueOf(b[1..])
  }

  lemma {:induction false} ValueOfBitsOf(v: nat, n: nat)
    requires v < Pow2(n)
    ensures ValueOf(BitsOf(v, n)) == v
  {
    if n != 0 {
      ValueOfBitsOf(v / 2, n - 1);
      assert BitsOf(v, n)[1..] == BitsOf(v / 2, n - 1);
    }
  }

  lemma {:induction false} BitsOfValueOf(b: seq<bool>)
    ensures BitsOf(ValueOf(b), |b|) == b
  {
    if b != [] {
      BitsOfValueOf(b[1..]);
      assert ValueOf(b) / 2 == ValueOf(b[1..]);
      assert b == [b[0]] + b[1..];
    }
  }

  /** Packing: the bits of `a + (b << n)` are those of `a` followed by those of `b`. */
  lemma {:induction false} BitsOfSum(a: nat, n: nat, b: nat, m: nat)
    requires a < Pow2(n)
    ensures BitsOf(a + Shl(b, n), n + m) == BitsOf(a, n) + BitsOf(b, m)
  {
    if n != 0 {
      var v := a + Shl(b, n);
      assert v / 2 == a / 2 + Shl(b, n - 1) && v % 2 == a % 2;
      BitsOfSum(a / 2, n - 1, b, m);
    }
  }

  /** Unpacking: the low `n` bits, then those above them. */
  lemma {:induction false} BitsOfSplit(v: nat, n: nat, m: nat)
    ensures BitsOf(v, n + m) == BitsOf(v, n) + BitsOf(Shr(v, n), m)
  {
    if n != 0 {
      BitsOfSplit(v / 2, n - 1, m);
    }
  }

  lemma {:induction false} BitsOfPrefix(v: nat, n: nat, m: nat)
    requires n <= m
    ensures BitsOf(v, m)[..n] == BitsOf(v, n)
    ensures BitsOf(v, n) == BitsOf(v % Pow2(n), n)
  {
    if n == 0 {
    } else {
      BitsOfPrefix(v / 2, n - 1, m - 1);
      assert BitsOf(v, m)[..n] == [v % 2 == 1] + BitsOf(v / 2, m - 1)[..n - 1];
      ModHalf(v, Pow2(n - 1));
    }
  }

  lemma ModHalf(v: nat, p: nat)
    requires p >= 1
    ensures (v % (2 * p)) % 2 == v % 2
    ensures (v % (2 * p)) / 2 == (v / 2) % p
  {
    var q, r := v / (2 * p), v % (2 * p);
    assert v == 2 * (p * q) + r;
    assert v / 2 == p * q + r / 2;
    ModUnique(v / 2, p, q, r / 2);
  }

  lemma MulBetween(p: int, d: int)
    requires p > 0 && -p < p * d < p
    ensures d == 0
  {
    assert d >= 1 ==> p * d >= p;
    assert d <= -1 ==> p * d <= -p;
  }

  lemma ModUnique(x: int, p: int, q: int, r: int)
    requires p > 0 && x == p * q + r && 0 <= r < p
    ensures x % p == r && x / p == q
  {
    var d := x / p - q;
    assert p * d == r - x % p;
    assert -p < p * d < p;
    assert d == 0 by { MulBetween(p, d); }
  }

  lemma {:induction false} ValueOfConcat(a: seq<bool>, b: seq<bool>)
    ensures ValueOf(a + b) == ValueOf(a) + Shl(ValueOf(b), |a|)
  {
    if a == [] {
      assert a + b == b;
    } else {
      ValueOfConcat(a[1..], b);
      assert (a + b)[1..] == a[1..] + b;
    }
  }

  // ---- bytes ------------------------------------------------------------------------

  predicate IsByte(x: int) { 0 <= x < 256 }

  predicate Bytes(s: seq<int>) { forall i :: 0 <= i < |s| ==> IsByte(s[i]) }

  /** A byte string as a bit string, each byte least significant bit first. */
  function BytesToBits(s: seq<int>): (r: seq<bool>)
    requires Bytes(s)
    ensures |r| == 8 * |s|
  {
    if s == [] then [] else BitsOf(s[0], 8) + BytesToBits(s[1..])
  }

  lemma {:induction false} BytesToBitsConcat(a: seq<int>, b: seq<int>)
    requires Bytes(a) && Bytes(b)
    ensures BytesToBits(a + b) == BytesToBits(a) + BytesToBits(b)
  {
    if a == [] {
      assert a + b == b;
    } else {
      assert (a + b)[1..] == a[1..] + b;
      BytesToBitsConcat(a[1..], b);
    }
  }

  lemma BytesToBitsOne(x: int)
    requires IsByte(x)
    ensures BytesToBits([x]) == BitsOf(x, 8)
  {
    assert BytesToBits([x]) == BitsOf(x, 8) + BytesToBits([]);
  }

  // ---- reversal ---------------------------------------------------------------------

  function Reversed(s: seq<bool>): (r: seq<bool>)
    ensures |r| == |s|
    ensures forall i :: 0 <= i < |s| ==> r[i] == s[|s| - 1 - i]
  {
    if s == [] then [] else Reversed(s[1..]) + [s[0]]
  }

  /** The value whose `n` bits are the low `n` bits of `v` in the opposite order. */
  function ReverseBits(v: nat, n: nat): (r: nat)
  {
    ValueOf(Reversed(BitsOf(v, n)))
  }

  lemma ReversedTwice(s: seq<bool>)
    ensures Reversed(Reversed(s)) == s
  {
    var r := Reversed(s);
    assert forall i :: 0 <= i < |s| ==> Reversed(r)[i] == r[|s| - 1 - i] == s[i];
  }

  /** `zip_bi_reverse` is an involution on values that fit their length, and never leaves
      the range. */
  lemma ReverseBitsInvolution(v: nat, n: nat)
    requires v < Pow2(n)
    ensures ReverseBits(v, n) < Pow2(n)
    ensures BitsOf(ReverseBits(v, n), n) == Reversed(BitsOf(v, n))
    ensures ReverseBits(ReverseBits(v, n), n) == v
  {
    BitsOfValueOf(Reversed(BitsOf(v, n)));
    ReversedTwice(BitsOf(v, n));
    ValueOfBitsOf(v, n);
  }

  // ---- bitwise operators ------------------------------------------------------------

  /** `a | b` */
  function BitOr(a: nat, b: nat): nat
    decreases a + b
  {
    if a == 0 then b else if b == 0 then a
    else (if a % 2 == 1 || b % 2 == 1 then 1 else 0) + 2 * BitOr(a / 2, b / 2)
  }

  /** `a ^ b` */
  function BitXor(a: nat, b: nat): nat
    decreases a + b
  {
    if a == 0 then b else if b == 0 then a
    else (if a % 2 != b % 2 then 1 else 0) + 2 * BitXor(a / 2, b / 2)
  }

  /** Or-ing into bit positions that are still clear is addition. */
  lemma {:induction false} BitOrDisjoint(a: nat, n: nat, b: nat)
    requires a < Pow2(n)
    ensures BitOr(a, Shl(b, n)) == a + Shl(b, n)
  {
    if n != 0 {
      BitOrDisjoint(a / 2, n - 1, b);
    }
  }

  lemma {:induction false} XorSelfCancel(a: nat, b: nat, c: nat)
    requires BitXor(a, b) == BitXor(a, c)
    ensures b == c
    decreases a + b + c
  {
    XorStep(a, b);
    XorStep(a, c);
    if a + b + c != 0 {
      if a == 0 {
      } else {
        XorSelfCancel(a / 2, b / 2, c / 2);
      }
    }
  }

  lemma XorStep(a: nat, b: nat)
    ensures BitXor(a, b) == (if a % 2 != b % 2 then 1 else 0) + 2 * BitXor(a / 2, b / 2)
  {
  }

  /** `v & (2^n - 1)` */
  function Low(v: nat, n: nat): (r: nat)
    ensures r < Pow2(n)
  {
    if n == 0 then 0 else v % 2 + 2 * Low(v / 2, n - 1)
  }

  lemma {:induction false} LowFits(v: nat, n: nat)
    requires v < Pow2(n)
    ensures Low(v, n) == v
  {
    if n != 0 {
      LowFits(v / 2, n - 1);
    }
  }

  lemma XorPair(i: nat, x: nat, j: nat, y: nat)
    requires i < 2 && j < 2
    ensures BitXor(i + 2 * x, j + 2 * y) == (if i != j then 1 else 0) + 2 * BitXor(x, y)
  {
    XorStep(i + 2 * x, j + 2 * y);
  }

  lemma LowPair(i: nat, x: nat, n: nat)
    requires i < 2 && n > 0
    ensures Low(i + 2 * x, n) == i + 2 * Low(x, n - 1)
  {
  }

  lemma {:induction false} XorLow(a: nat, b: nat, n: nat)
    ensures BitXor(Low(a, n), Low(b, n)) == Low(BitXor(a, b), n)
  {
    hide BitXor;
    if n == 0 {
      XorPair(0, 0, 0, 0);
    } else {
      var i, x, j, y := a % 2, a / 2, b % 2, b / 2;
      XorLow(x, y, n - 1);
      XorLowStep(i, x, j, y, n);
    }
  }

  lemma XorLowStep(i: nat, x: nat, j: nat, y: nat, n: nat)
    requires i < 2 && j < 2 && n > 0
    requires BitXor(Low(x, n - 1), Low(y, n - 1)) == Low(BitXor(x, y), n - 1)
    ensures BitXor(Low(i + 2 * x, n), Low(j + 2 * y, n)) == Low(BitXor(i + 2 * x, j + 2 * y), n)
  {
    hide BitXor, Low;
    var e := if i != j then 1 else 0;
    LowPair(i, x, n);
    LowPair(j, y, n);
    XorPair(i, x, j, y);
    XorPair(i, Low(x, n - 1), j, Low(y, n - 1));
    LowPair(e, BitXor(x, y), n);
  }

  lemma XorDouble(x: nat, y: nat)
    ensures BitXor(2 * x, 2 * y) == 2 * BitXor(x, y)
  {
    XorStep(2 * x, 2 * y);
    assert 2 * x / 2 == x && 2 * y / 2 == y;
  }

  lemma {:induction false} XorShl(a: nat, b: nat, n: nat)
    ensures BitXor(Shl(a, n), Shl(b, n)) == Shl(BitXor(a, b), n)
  {
    if n != 0 {
      XorDouble(Shl(a, n - 1), Shl(b, n - 1));
      XorShl(a, b, n - 1);
    }
  }
}
