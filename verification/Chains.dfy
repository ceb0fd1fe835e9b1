/** The hash chains of the match finder, as values: which positions a chain visits, and why
    they have the key of the string that is looked up. Positions in the window slide, so
    everything is stated of absolute positions in the input, `base` + window index. */
module Chains {
  import opened Bits
  import opened Hashing

  const WSIZE: nat := 32768
  const WINDOW_SIZE: nat := 65536
  const NIL: int := 0
  const MIN_MATCH: nat := 3
  const MAX_MATCH: nat := 258
  const MIN_LOOKAHEAD: nat := MAX_MATCH + MIN_MATCH + 1
  const MAX_DIST: nat := WSIZE - MIN_LOOKAHEAD

  /** The input as bytes: `zip_read_buff` keeps the low byte of each character. */
  function LowBytes(data: seq<nat>): (r: seq<int>)
    ensures |r| == |data| && Bytes(r) && forall i :: 0 <= i < |r| ==> r[i] == data[i] % 256
  {
    seq(|data|, i requires 0 <= i < |data| => data[i] % 256)
  }

  /** The first `n` cells of the window hold the input from `base` on. */
  predicate Loaded(win: seq<int>, input: seq<int>, base: nat, n: nat)
  {
    n <= |win| == WINDOW_SIZE && base + n <= |input| && forall i :: 0 <= i < n ==> win[i] == input[base + i]
  }

  /** The hash key of the three bytes at `p`. */
  function KeyAt(input: seq<int>, p: nat): nat
    requires Bytes(input) && p + 3 <= |input|
  {
    Hash3(input[p], input[p + 1], input[p + 2])
  }

  predicate HasKey(input: seq<int>, p: nat, h: nat)
    requires Bytes(input)
  {
    p + 3 <= |input| ==> KeyAt(input, p) == h
  }

  /** No string with key `h` was inserted between `a` and `b`. */
  predicate NoneBetween(input: seq<int>, seen: set<nat>, a: int, b: int, h: nat)
    requires Bytes(input)
  {
    forall p {:trigger p in seen} :: p in seen && a < p < b && p + 3 <= |input| ==> KeyAt(input, p) != h
  }

  /** `q` is the latest inserted string with key `h` before `bound`, or ends the chain if none is
      left in the window (whose first cell does not count). */
  predicate Link(input: seq<int>, base: nat, seen: set<nat>, q: int, h: nat, bound: int)
    requires Bytes(input)
  {
    && (q == NIL || (0 < q < bound && base + q in seen && HasKey(input, base + q, h)))
    && NoneBetween(input, seen, base + q, base + bound, h)
  }

  /** `zip_head1` */
  function Head(prev: seq<int>, h: nat): int
    requires |prev| == WINDOW_SIZE && h < HASH_SIZE
  {
    prev[WSIZE + h]
  }

  predicate HeadsOk(prev: seq<int>, input: seq<int>, base: nat, seen: set<nat>, next: nat)
    requires Bytes(input)
  {
    && |prev| == WINDOW_SIZE && (forall p :: p in seen ==> p < base + next)
    && forall h :: 0 <= h < HASH_SIZE ==> Link(input, base, seen, Head(prev, h), h, next)
  }

  /** The entry for window index `w` leads to the string before it with the same key. */
  predicate LinkAt(prev: seq<int>, input: seq<int>, base: nat, seen: set<nat>, w: nat)
    requires Bytes(input) && |prev| == WINDOW_SIZE
  {
    var q := prev[w % WSIZE];
    && (q == NIL || (0 < q < w && base + q in seen))
    && (base + w + 3 <= |input| ==> Link(input, base, seen, q, KeyAt(input, base + w), w))
  }

  /** The entries of all inserted strings less than WSIZE back are intact. */
  predicate ChainsOk(prev: seq<int>, input: seq<int>, base: nat, seen: set<nat>, next: nat)
    requires Bytes(input)
  {
    && |prev| == WINDOW_SIZE
    && forall p {:trigger p in seen} :: p in seen && p >= base && next - WSIZE <= p - base ==>
         p - base < next && LinkAt(prev, input, base, seen, p - base)
  }

  /** `zip_INSERT_STRING` on the arrays: `cur` becomes the head of the chain for `h`. */
  function Inserted(prev: seq<int>, cur: nat, h: nat): (r: seq<int>)
    requires |prev| == WINDOW_SIZE && h < HASH_SIZE
    ensures |r| == WINDOW_SIZE
  {
    prev[cur % WSIZE := Head(prev, h)][WSIZE + h := cur]
  }

  lemma InsertKeepsHeads(prev: seq<int>, input: seq<int>, base: nat, seen: set<nat>, next: nat, cur: nat, h: nat)
    requires Bytes(input) && next <= cur && h < HASH_SIZE
    requires HeadsOk(prev, input, base, seen, next) && HasKey(input, base + cur, h)
    ensures HeadsOk(Inserted(prev, cur, h), input, base, seen + {base + cur}, cur + 1)
  {
    var r := Inserted(prev, cur, h);
    forall k | 0 <= k < HASH_SIZE
      ensures Link(input, base, seen + {base + cur}, Head(r, k), k, cur + 1)
    {
      assert Link(input, base, seen, Head(prev, k), k, next);
      assert Head(r, k) == if k == h then cur else Head(prev, k);
    }
  }

  lemma OtherSlot(w: int, cur: nat)
    requires 0 <= w < cur && cur - WSIZE < w
    ensures w % WSIZE != cur % WSIZE
  {
  }

  /** The entry of the string that is inserted leads to the one inserted before it with the
      same key. */
  lemma NewLink(prev: seq<int>, input: seq<int>, base: nat, seen: set<nat>, next: nat, cur: nat, h: nat)
    requires Bytes(input) && next <= cur && h < HASH_SIZE
    requires HeadsOk(prev, input, base, seen, next) && HasKey(input, base + cur, h)
    ensures LinkAt(Inserted(prev, cur, h), input, base, seen + {base + cur}, cur)
  {
    hide KeyAt;
    assert Link(input, base, seen, Head(prev, h), h, next);
    assert Inserted(prev, cur, h)[cur % WSIZE] == Head(prev, h);
  }

  lemma OldLink(prev: seq<int>, input: seq<int>, base: nat, seen: set<nat>, cur: nat, h: nat, w: nat)
    requires Bytes(input) && h < HASH_SIZE && |prev| == WINDOW_SIZE && w < cur < w + WSIZE
    requires LinkAt(prev, input, base, seen, w)
    ensures LinkAt(Inserted(prev, cur, h), input, base, seen + {base + cur}, w)
  {
    hide HasKey, KeyAt;
    OtherSlot(w, cur);
    assert Inserted(prev, cur, h)[w % WSIZE] == prev[w % WSIZE];
  }

  lemma InsertKeepsChains(prev: seq<int>, input: seq<int>, base: nat, seen: set<nat>, next: nat, cur: nat, h: nat)
    requires Bytes(input) && next <= cur && h < HASH_SIZE
    requires HeadsOk(prev, input, base, seen, next) && HasKey(input, base + cur, h)
    requires ChainsOk(prev, input, base, seen, next)
    ensures ChainsOk(Inserted(prev, cur, h), input, base, seen + {base + cur}, cur + 1)
  {
    hide LinkAt, HeadsOk, HasKey, Inserted, KeyAt, Link, NoneBetween, Bytes;
    NewLink(prev, input, base, seen, next, cur, h);
    var r, seen' := Inserted(prev, cur, h), seen + {base + cur};
    forall p | p in seen' && p >= base && cur + 1 - WSIZE <= p - base
      ensures p - base < cur + 1 && LinkAt(r, input, base, seen', p - base)
    {
      if p != base + cur {
        assert p in seen;
        OldLink(prev, input, base, seen, cur, h, p - base);
      }
    }
  }

  /** What sliding by WSIZE makes of an entry. */
  function SlidEntry(m: int): (r: nat) { if m >= WSIZE then m - WSIZE else NIL }

  predicate Slid(prev: seq<int>, prev': seq<int>)
  {
    && |prev| == |prev'| == WINDOW_SIZE
    && forall n {:trigger prev'[n]} :: 0 <= n < WSIZE + HASH_SIZE ==> prev'[n] == SlidEntry(prev[n])
  }

  /** Sliding the window keeps every chain down to the strings that are still in it. */
  lemma SlideKeeps(prev: seq<int>, prev': seq<int>, input: seq<int>, base: nat, seen: set<nat>, next: nat)
    requires Bytes(input) && Slid(prev, prev')
    requires HeadsOk(prev, input, base, seen, next) && ChainsOk(prev, input, base, seen, next)
    ensures HeadsOk(prev', input, base + WSIZE, seen, SlidEntry(next))
    ensures ChainsOk(prev', input, base + WSIZE, seen, SlidEntry(next))
  {
    hide KeyAt;
    forall h | 0 <= h < HASH_SIZE
      ensures Link(input, base + WSIZE, seen, Head(prev', h), h, SlidEntry(next))
    {
      assert Link(input, base, seen, Head(prev, h), h, next);
    }
    forall p | p in seen && p >= base + WSIZE && SlidEntry(next) - WSIZE <= p - (base + WSIZE)
      ensures p - base - WSIZE < SlidEntry(next) && LinkAt(prev', input, base + WSIZE, seen, p - base - WSIZE)
    {
      var w := p - base;
      assert LinkAt(prev, input, base, seen, w);
      assert (w - WSIZE) % WSIZE == w % WSIZE;
      var q := prev[w % WSIZE];
      assert base + WSIZE + (q - WSIZE) == base + q;
    }
  }

  // ---- matches ----------------------------------------------------------------------

  predicate SameByte(input: seq<int>, m: nat, p: nat, k: nat)
    requires m + k < |input| && p + k < |input|
  {
    input[p + k] == input[m + k]
  }

  /** The `n` bytes at `p` are also those at `m`. */
  predicate SameRun(input: seq<int>, m: nat, p: nat, n: nat)
  {
    m < p && p + n <= |input| && forall k :: 0 <= k < n ==> SameByte(input, m, p, k)
  }

  /** A match of length `len` at window index `ms` for the string at `str`; what has not been
      read yet, from `pos` on, does not count. */
  predicate MatchFound(input: seq<int>, base: nat, str: nat, pos: nat, ms: int, len: nat)
  {
    && MIN_MATCH <= len <= MAX_MATCH && 0 < ms < str && str - ms <= MAX_DIST && base + str <= pos
    && (base + str + MIN_MATCH <= pos ==> SameRun(input, base + ms, base + str, Min(len, pos - base - str)))
  }

  /** A candidate from the chain for the string at `str`. */
  predicate Candidate(input: seq<int>, base: nat, seen: set<nat>, str: nat, q: int)
    requires Bytes(input)
  {
    && 0 < q < str && str - q <= MAX_DIST && base + q in seen
    && (base + str + 3 <= |input| ==> HasKey(input, base + q, KeyAt(input, base + str)))
  }

  /** Along the chain, candidates lead to candidates. */
  lemma NextCandidate(prev: seq<int>, input: seq<int>, base: nat, seen: set<nat>, str: nat, q: nat, limit: int)
    requires Bytes(input) && ChainsOk(prev, input, base, seen, str + 1) && Candidate(input, base, seen, str, q)
    requires limit >= 0 && str - limit <= MAX_DIST
    ensures prev[q % WSIZE] > limit ==> Candidate(input, base, seen, str, prev[q % WSIZE])
    ensures prev[q % WSIZE] >= 0
  {
    hide KeyAt;
    assert base + q in seen;
    assert LinkAt(prev, input, base, seen, base + q - base);
  }

  // ---- what a search looks at -------------------------------------------------------

  /** The strings that a search looks at: `q` and those behind it in its hash chain, as long as
      they lie above `limit`, but at most `n`. */
  function Visited(prev: seq<int>, q: nat, limit: nat, n: nat): seq<nat>
    requires |prev| >= WSIZE
    decreases n
  {
    if n <= 1 || prev[q % WSIZE] <= limit then [q] else [q] + Visited(prev, prev[q % WSIZE], limit, n - 1)
  }

  /** The strings with key `h` that were inserted between `a` and `b`. */
  function WithKey(input: seq<int>, seen: set<nat>, a: int, b: int, h: nat): set<nat>
    requires Bytes(input)
  {
    set p | p in seen && a < p < b && p + 3 <= |input| && KeyAt(input, p) == h
  }

  /** A match for the string at `p` that is longer than `len` starts at `lo` or before, or behind at
      least `n` other strings with the same key. */
  predicate Longest(input: seq<int>, seen: set<nat>, lo: nat, p: nat, n: nat, len: nat)
    requires Bytes(input) && len >= 2
  {
    len >= MAX_MATCH ||
    forall m {:trigger m in seen} :: m in seen && lo < m < p && SameRun(input, m, p, len + 1) ==>
      |WithKey(input, seen, m, p, KeyAt(input, p))| >= n
  }

  /** No string closer than the one at `m` has the same `len` bytes as the one at `p`. */
  predicate Nearest(input: seq<int>, seen: set<nat>, m: int, p: nat, len: nat)
  {
    forall x {:trigger x in seen} :: x in seen && m < x < p ==> !SameRun(input, x, p, len)
  }

  /** The string itself is not among the earlier ones. */
  lemma LongestBefore(input: seq<int>, seen: set<nat>, lo: nat, p: nat, n: nat, len: nat)
    requires Bytes(input) && len >= 2 && Longest(input, seen + {p}, lo, p, n, len)
    ensures Longest(input, seen, lo, p, n, len)
  {
    hide KeyAt;
    if len < MAX_MATCH {
      forall m | m in seen && lo < m < p && SameRun(input, m, p, len + 1)
        ensures |WithKey(input, seen, m, p, KeyAt(input, p))| >= n
      {
        assert m in seen + {p};
        assert WithKey(input, seen + {p}, m, p, KeyAt(input, p)) == WithKey(input, seen, m, p, KeyAt(input, p));
      }
    }
  }

  lemma SameRunSameKey(input: seq<int>, m: nat, p: nat, n: nat)
    requires Bytes(input) && SameRun(input, m, p, n) && n >= 3
    ensures KeyAt(input, m) == KeyAt(input, p)
  {
    assert SameByte(input, m, p, 0) && SameByte(input, m, p, 1) && SameByte(input, m, p, 2);
  }

  /** A search that starts at the latest string with key `h` before `bound` looks at every string
      with this key above the limit that has fewer than `n` others before it. */
  lemma {:induction false} AllVisited(prev: seq<int>, input: seq<int>, base: nat, seen: set<nat>, next: nat, q: nat,
                                      h: nat, bound: nat, limit: nat, n: nat, p: nat)
    requires Bytes(input) && ChainsOk(prev, input, base, seen, next) && |prev| == WINDOW_SIZE
    requires bound <= next && next - WSIZE <= limit && q >= 0
    requires Link(input, base, seen, q, h, bound) && base + bound + 2 <= |input|
    requires p in seen && base + limit < p < base + bound && p + 3 <= |input| && KeyAt(input, p) == h
    requires |WithKey(input, seen, p, base + bound, h)| < n
    ensures p - base in Visited(prev, q, limit, n)
    decreases n
  {
    hide KeyAt, ChainsOk, LinkAt, WithKey;
    AtOrBefore(input, seen, base + q, base + bound, h, p);
    if p < base + q {
      FewerLeft(input, seen, p, base + q, base + bound, h);
      NextLink(prev, input, base, seen, next, q, h);
      hide Link, NoneBetween, HasKey;
      AllVisited(prev, input, base, seen, next, prev[q % WSIZE], h, q, limit, n - 1, p);
    }
  }

  /** A search looks at the closer strings with the key before it looks at another one. */
  lemma {:induction false} CloserBefore(prev: seq<int>, input: seq<int>, base: nat, seen: set<nat>, next: nat, q: nat,
                                        h: nat, bound: nat, limit: nat, n: nat, i: nat, p: nat)
    requires Bytes(input) && ChainsOk(prev, input, base, seen, next) && |prev| == WINDOW_SIZE
    requires bound <= next && next - WSIZE <= limit && q >= 0
    requires Link(input, base, seen, q, h, bound) && base + bound + 2 <= |input|
    requires i < |Visited(prev, q, limit, n)|
    requires p in seen && base + Visited(prev, q, limit, n)[i] < p < base + bound && p + 3 <= |input|
    requires KeyAt(input, p) == h && p > base + limit
    ensures p - base in Visited(prev, q, limit, n)[..i]
    decreases i
  {
    hide KeyAt, ChainsOk, LinkAt, WithKey;
    AtOrBefore(input, seen, base + q, base + bound, h, p);
    var chain := Visited(prev, q, limit, n);
    if p == base + q {
      assert chain[..i][0] == q;
    } else {
      NextLink(prev, input, base, seen, next, q, h);
      hide Link, NoneBetween, HasKey;
      CloserBefore(prev, input, base, seen, next, prev[q % WSIZE], h, q, limit, n - 1, i - 1, p);
      assert chain[..i] == [q] + Visited(prev, prev[q % WSIZE], limit, n - 1)[..i - 1];
    }
  }

  lemma AtOrBefore(input: seq<int>, seen: set<nat>, a: int, b: int, h: nat, p: nat)
    requires Bytes(input) && NoneBetween(input, seen, a, b, h)
    requires p in seen && p < b && p + 3 <= |input| && KeyAt(input, p) == h
    ensures p <= a
  {
  }

  /** From one string of a chain to the next, which is the latest before it. */
  lemma NextLink(prev: seq<int>, input: seq<int>, base: nat, seen: set<nat>, next: nat, q: nat, h: nat)
    requires Bytes(input) && ChainsOk(prev, input, base, seen, next) && base + q in seen && next - WSIZE <= q
    requires base + q + 3 <= |input| && KeyAt(input, base + q) == h
    ensures Link(input, base, seen, prev[q % WSIZE], h, q)
  {
    hide KeyAt, Link;
    assert LinkAt(prev, input, base, seen, base + q - base);
  }

  lemma FewerLeft(input: seq<int>, seen: set<nat>, a: int, q: nat, b: int, h: nat)
    requires Bytes(input) && a < q < b && q in seen && q + 3 <= |input| && KeyAt(input, q) == h
    ensures |WithKey(input, seen, a, q, h)| < |WithKey(input, seen, a, b, h)|
  {
    hide KeyAt;
    var less, more := WithKey(input, seen, a, q, h), WithKey(input, seen, a, b, h);
    assert q in more && q !in less && less <= more;
    SubsetSize(less, more - {q});
  }

  lemma {:induction false} SubsetSize(a: set<nat>, b: set<nat>)
    requires a <= b
    ensures |a| <= |b|
  {
    if a != {} {
      var x :| x in a;
      SubsetSize(a - {x}, b - {x});
    }
  }
}
