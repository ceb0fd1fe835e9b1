/** A dynamic tree of the encoder (`zip_DeflateTreeDesc`), and what the code it ends up
    with means to a decoder that sees only the lengths up to the largest used symbol. */
module DynamicTree {
  import opened Bits
  import opened Options
  import opened HuffmanCode
  import opened HuffmanForest
  import opened HuffmanBuild
  import opened HuffmanStart
  import opened BitLengths
  import opened LengthLimit
  import opened TreeBuilder
  import opened TreeHeader
  import opened TreeSender
  import opened DynamicHeader
  import opened CodeTables

  /** The tree built for the frequencies `f`. */
  ghost predicate Encoded(f: seq<int>, fc: seq<int>, dl: seq<int>, maxCode: int, limit: nat, overflow: int)
  {
    && 3 <= |f| <= |fc| && |f| <= |dl| && NonNegative(dl[..|f|])
    && TreeResult(AtLeastTwo(f), dl[..|f|], limit, overflow)
    && maxCode == MaxUsed(AtLeastTwo(f), |f|) >= 0
    && Sendable(fc, dl, |f|)
    && (overflow == 0 ==> Canonical(fc, dl[..|f|]))
  }

  /** The cost of the tree is estimated with the lengths `est`. */
  ghost predicate Estimated(dl: seq<int>, n: nat, est: seq<nat>, limit: nat, overflow: int)
  {
    n <= |dl| && |est| == n && NonNegative(dl[..n]) && Estimate(dl[..n], est, limit, overflow)
  }

  /** A tree descriptor that `zip_build_tree` can work with. */
  predicate Fitting(elems: nat, extraBits: seq<nat>, extraBase: nat, maxLength: nat, staticDl: Option<seq<int>>)
  {
    && 3 <= elems <= 286 && 1 <= maxLength <= MAX_BITS && elems <= Pow2(maxLength)
    && elems <= extraBase + |extraBits| && (forall c :: 0 <= c < 3 ==> XBits(extraBits, extraBase, c) == 0)
    && (staticDl.Some? ==> |staticDl.value| >= elems)
  }

  class Tree {
    const fc: array<int>
    const dl: array<int>
    const staticDl: Option<seq<int>>
    const extraBits: seq<nat>
    const extraBase: nat
    const elems: nat
    const maxLength: nat
    var maxCode: int

    ghost predicate Shape()
    {
      && fc != dl && 2 * elems < fc.Length == dl.Length <= HEAP_SIZE
      && Fitting(elems, extraBits, extraBase, maxLength, staticDl)
    }

    ghost function Arrays(): set<object> { {fc, dl} }

    constructor (elems: nat, extraBits: seq<nat>, extraBase: nat, maxLength: nat, staticDl: Option<seq<int>>)
      requires Fitting(elems, extraBits, extraBase, maxLength, staticDl)
      ensures Shape() && fresh(Arrays())
      ensures this.elems == elems && this.extraBits == extraBits && this.extraBase == extraBase
      ensures this.maxLength == maxLength && this.staticDl == staticDl
    {
      fc := new int[2 * elems + 1];
      dl := new int[2 * elems + 1];
      this.elems, this.extraBits, this.extraBase, this.maxLength := elems, extraBits, extraBase, maxLength;
      this.staticDl := staticDl;
      maxCode := 0;
    }

    /** `zip_build_tree` on this descriptor. */
    method Build(heap: array<int>, depth: array<int>, blCount: array<int>, optLen: int, staticLen: int)
      returns (overflow: int, optLen': int, staticLen': int, ghost est: seq<nat>)
      requires Shape() && Arrays() !! {heap, depth, blCount} && heap != depth && blCount != heap && blCount != depth
      requires heap.Length == depth.Length == HEAP_SIZE && blCount.Length == MAX_BITS + 1
      requires NonNegative(fc[..elems])
      modifies this, fc, dl, heap, depth, blCount
      ensures Encoded(old(fc[..elems]), fc[..], dl[..], maxCode, maxLength, overflow)
      ensures Estimated(dl[..], elems, est, maxLength, overflow)
      ensures optLen' == optLen + Total(old(fc[..elems]), dl[..elems], est, extraBits, extraBase, elems)
      ensures staticDl.Some? ==>
        staticLen' == staticLen + Total(old(fc[..elems]), dl[..elems], staticDl.value, extraBits, extraBase, elems)
    {
      ghost var f := fc[..elems];
      maxCode, overflow, optLen', staticLen', est := BuildTree(fc, dl, heap, depth, blCount, elems, maxLength,
        extraBits, extraBase, staticDl, optLen, staticLen);
      assert dl[..][..elems] == dl[..elems];
    }
  }

  // ---- the code that the decoder rebuilds -------------------------------------------

  lemma {:induction false} RankTrim(lens: seq<nat>, m: nat, k: nat, len: nat)
    requires m <= |lens| && k <= |lens| && len > 0 && forall c :: m <= c < |lens| ==> lens[c] == 0
    ensures Rank(lens, k, len) == Rank(lens[..m], if k <= m then k else m, len)
  {
    if k != 0 {
      RankTrim(lens, m, k - 1, len);
    }
  }

  lemma {:induction false} FirstCodeTrim(lens: seq<nat>, m: nat, len: nat)
    requires m <= |lens| && forall c :: m <= c < |lens| ==> lens[c] == 0
    ensures FirstCode(lens, len) == FirstCode(lens[..m], len)
  {
    if len > 1 {
      RankTrim(lens, m, |lens|, len - 1);
      FirstCodeTrim(lens, m, len - 1);
    }
  }

  lemma {:induction false} KraftTrim(lens: seq<nat>, m: nat, k: nat, limit: nat)
    requires m <= |lens| && k <= |lens| && Limited(lens, limit) && forall c :: m <= c < |lens| ==> lens[c] == 0
    ensures Limited(lens[..m], limit)
    ensures KraftOf(lens, k, limit) == KraftOf(lens[..m], if k <= m then k else m, limit)
  {
    if k != 0 {
      KraftTrim(lens, m, k - 1, limit);
    }
  }

  /** Unused symbols at the end do not change the code. */
  lemma CodewordTrim(lens: seq<nat>, m: nat, c: nat)
    requires c < m <= |lens| && lens[c] > 0 && forall i :: m <= i < |lens| ==> lens[i] == 0
    ensures Codeword(lens[..m], c) == Codeword(lens, c)
  {
    RankTrim(lens, m, c, lens[c]);
    FirstCodeTrim(lens, m, lens[c]);
  }

  /** The lengths that are sent for a tree: those up to its largest used symbol. */
  function SentLengths(dl: seq<int>, maxCode: int): (r: seq<nat>)
    requires 0 <= maxCode < |dl| && NonNegative(dl[..maxCode + 1])
  {
    dl[..maxCode + 1]
  }

  /** The code behind the sent lengths: every symbol in `f` is sent as its codeword, unless
      the lengths are over-subscribed, which they are exactly after an overflow. */
  ghost predicate Decodable(f: seq<int>, fc: seq<int>, dl: seq<int>, maxCode: int, limit: nat, overflow: int)
  {
    && 0 <= maxCode < |f| && maxCode + 1 < |dl| && |f| <= |fc| && |f| <= |dl| && limit <= MAX_BITS
    && NonNegative(dl[..maxCode + 1]) && dl[maxCode] > 0
    && var lens := SentLengths(dl, maxCode);
    && Limited(lens, limit) && (ValidLengths(lens) <==> overflow == 0)
    && (forall c {:trigger f[c]} :: 0 <= c < |f| && f[c] > 0 ==>
          c <= maxCode && CanSend(fc, dl, c) && (overflow == 0 ==> Encodes(CodeTable(fc, dl), lens, c)))
    && (forall c {:trigger fc[c]} :: 0 <= c <= maxCode && dl[c] > 0 ==>
          CanSend(fc, dl, c) && (overflow == 0 ==> Encodes(CodeTable(fc, dl), lens, c)))
  }

  lemma UsedAreAlive(f: seq<int>, lens: seq<nat>, maxCode: int, limit: nat, overflow: int, c: nat)
    requires |f| >= 3 && NonNegative(f) && c < |f|
    requires TreeResult(AtLeastTwo(f), lens, limit, overflow) && maxCode == MaxUsed(AtLeastTwo(f), |f|) >= 0
    ensures f[c] > 0 ==> lens[c] > 0
    ensures lens[c] > 0 ==> c <= maxCode
  {
    if f[c] > 0 {
      ForcedKeeps(f, |Used(f, |f|)|, c);
    }
    assert lens[c] > 0 <==> Alive(AtLeastTwo(f), c);
  }

  lemma LargestIsAlive(f: seq<int>, lens: seq<nat>, maxCode: int, limit: nat, overflow: int)
    requires |f| >= 3 && NonNegative(f)
    requires TreeResult(AtLeastTwo(f), lens, limit, overflow) && maxCode == MaxUsed(AtLeastTwo(f), |f|) >= 0
    ensures lens[maxCode] > 0
  {
    hide LeastCost;
    ForcedNonNegative(f, |Used(f, |f|)|);
    assert lens[maxCode] > 0 <==> Alive(AtLeastTwo(f), maxCode);
  }

  lemma BuiltIsDecodable(f: seq<int>, fc: seq<int>, dl: seq<int>, maxCode: int, limit: nat, overflow: int)
    requires Encoded(f, fc, dl, maxCode, limit, overflow) && NonNegative(f)
    requires |dl| > |f| && limit <= MAX_BITS
    ensures Decodable(f, fc, dl, maxCode, limit, overflow)
  {
    hide LeastCost, AtLeastTwo, MaxUsed, Codeword, ValidLengths;
    var full: seq<nat> := dl[..|f|];
    var m := maxCode + 1;
    assert dl[..m] == full[..m];
    var lens := SentLengths(dl, maxCode);
    assert forall c :: 0 <= c < |full| ==> full[c] == dl[c];
    forall c | 0 <= c < |f|
      ensures f[c] > 0 ==> dl[c] > 0
      ensures dl[c] > 0 ==> c <= maxCode
    {
      UsedAreAlive(f, full, maxCode, limit, overflow, c);
    }
    LargestIsAlive(f, full, maxCode, limit, overflow);
    KraftTrim(full, m, |full|, limit);
    ValidAtAnyLimit(lens, limit);
    forall c | 0 <= c <= maxCode && dl[c] > 0
      ensures CanSend(fc, dl, c) && (overflow == 0 ==> Encodes(CodeTable(fc, dl), lens, c))
    {
      assert SendableAt(fc, dl, c);
      CodewordTrim(full, m, c);
    }
  }

  /** The guard that the scan puts after the last length is never part of a code. */
  lemma GuardedIsDecodable(f: seq<int>, fc: seq<int>, dl: seq<int>, maxCode: int, limit: nat, overflow: int)
    requires Decodable(f, fc, dl, maxCode, limit, overflow)
    ensures Decodable(f, fc, dl[maxCode + 1 := GUARD], maxCode, limit, overflow)
    ensures dl[maxCode + 1 := GUARD][..maxCode + 1] == dl[..maxCode + 1]
  {
    var dl' := dl[maxCode + 1 := GUARD];
    assert dl'[..maxCode + 1] == dl[..maxCode + 1];
    hide Codeword, ValidLengths;
    forall c | 0 <= c <= maxCode && dl'[c] > 0
      ensures CanSend(fc, dl', c) && (overflow == 0 ==> Encodes(CodeTable(fc, dl'), SentLengths(dl, maxCode), c))
    {
      assert dl'[c] == dl[c];
      assert fc[c] == fc[c];
      assert CanSend(fc, dl, c);
    }
  }
}
