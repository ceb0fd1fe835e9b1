/** The rolling hash of three bytes (`UPDATE_HASH`, `zip_INSERT_STRING`). */
module Hashing {
  import opened Bits

  const HASH_BITS: nat := 13
  const HASH_SIZE: nat := 8192
  const H_SHIFT: nat := 5

  /** One step of the hash: `((h << H_SHIFT) ^ c) & HASH_MASK`. */
  function UpdateHash(h: nat, c: nat): (r: nat)
    ensures r < HASH_SIZE
  {
    assert Pow2(13) == 8192;
    Low(BitXor(Shl(h, H_SHIFT), c), HASH_BITS)
  }

  /** The hash key of three bytes. */
  function Hash3(a: nat, b: nat, c: nat): (r: nat)
    ensures r < HASH_SIZE
  {
    UpdateHash(BitXor(Shl(a, H_SHIFT), b), c)
  }

  /** All of the running hash that the next three-byte key depends on: its low eight bits
      are those of the two bytes before. */
  predicate Rolled(h: nat, a: nat, b: nat)
  {
    Low(h, 8) == Low(BitXor(Shl(a, H_SHIFT), b), 8)
  }

  lemma {:induction false} LowShl(v: nat, n: nat, k: nat)
    ensures Low(Shl(v, k), n + k) == Shl(Low(v, n), k)
  {
    if k != 0 {
      LowShl(v, n, k - 1);
      LowPair(0, Shl(v, k - 1), n + k);
    }
  }

  lemma {:induction false} LowLow(v: nat, n: nat, m: nat)
    requires m <= n
    ensures Low(Low(v, n), m) == Low(v, m)
  {
    if m != 0 {
      LowLow(v / 2, n - 1, m - 1);
      LowPair(v % 2, Low(v / 2, n - 1), m);
    }
  }

  lemma LowShlSmall(v: nat)
    ensures Low(Shl(v, 5), 3) == 0 && Low(Shl(v, 5), 5) == 0
  {
    LowShl(v, 0, 5);
    ShlAdd(0, 0, 5);
    LowLow(Shl(v, 5), 5, 3);
  }

  /** The hash of the three bytes at a position, whatever came before them. */
  lemma RolledGivesHash(h: nat, a: nat, b: nat, c: nat)
    requires Rolled(h, a, b)
    ensures UpdateHash(h, c) == Hash3(a, b, c)
  {
    var x := BitXor(Shl(a, H_SHIFT), b);
    LowShl(h, 8, 5);
    LowShl(x, 8, 5);
    hide Low, BitXor, Shl;
    XorLow(Shl(h, 5), c, 13);
    XorLow(Shl(x, 5), c, 13);
  }

  lemma LowOfRolled(h: nat, a: nat, b: nat)
    requires Rolled(h, a, b)
    ensures Low(h, 3) == Low(b, 3)
  {
    var x := Shl(a, 5);
    LowLow(h, 8, 3);
    LowLow(BitXor(x, b), 8, 3);
    XorLow(x, b, 3);
    LowShlSmall(a);
    hide Low, Shl;
    assert BitXor(0, Low(b, 3)) == Low(b, 3);
  }

  /** After the update, the running hash is that of the next two bytes. */
  lemma RolledStep(h: nat, a: nat, b: nat, c: nat)
    requires Rolled(h, a, b)
    ensures Rolled(UpdateHash(h, c), b, c)
  {
    LowOfRolled(h, a, b);
    LowLow(BitXor(Shl(h, 5), c), 13, 8);
    XorLow(Shl(h, 5), c, 8);
    XorLow(Shl(b, 5), c, 8);
    LowShl(h, 3, 5);
    LowShl(b, 3, 5);
  }

  /** Starting from nothing, two updates give the running hash of two bytes. */
  lemma RolledStart(h: nat, a: nat, b: nat)
    requires a < 256
    ensures Rolled(UpdateHash(a, b), a, b)
    ensures UpdateHash(0, a) == a
  {
    LowLow(BitXor(Shl(a, 5), b), 13, 8);
    ShlAdd(0, 0, 5);
    assert Pow2(8) == 256;
    Pow2Mono(8, 13);
    LowFits(a, 13);
    hide Low;
    assert BitXor(0, a) == a;
  }

  /** Equal keys and equal first two bytes mean an equal third byte: this is why
      `zip_longest_match` never compares it. */
  lemma HashGivesThird(a: nat, b: nat, c: nat, d: nat)
    requires c < 256 && d < 256 && Hash3(a, b, c) == Hash3(a, b, d)
    ensures c == d
  {
    var x := Shl(BitXor(Shl(a, H_SHIFT), b), H_SHIFT);
    XorLow(x, c, 13);
    XorLow(x, d, 13);
    XorSelfCancel(Low(x, 13), Low(c, 13), Low(d, 13));
    assert Pow2(8) == 256;
    Pow2Mono(8, 13);
    LowFits(c, 13);
    LowFits(d, 13);
  }
}
