/** The header of a dynamic block (`zip_send_all_trees`), against section 3.2.7 of
    RFC 1951: what the decoder makes of it, and what it costs. */
module DynamicHeader {
  import opened Bits
  import opened Options
  import opened HuffmanCode
  import opened Rfc1951
  import opened SymbolCosts
  import opened TreeHeader
  import opened TreeSender

  const BL_ORDER: seq<nat> := [16, 17, 18, 0, 8, 7, 9, 6, 10, 5, 11, 4, 12, 3, 13, 2, 14, 1, 15]

  /** The symbol whose length is sent at rank `r`. */
  function AtRank(r: nat): (c: nat)
    requires r < BL_CODES
    ensures c < BL_CODES
  {
    BL_ORDER[r]
  }

  /** What a header is made of: the literal/length and distance lengths, the code that the
      lengths are sent with, and how many of that code's own lengths are sent. */
  datatype Header = Header(ll: seq<nat>, dd: seq<nat>, blFc: seq<int>, bl: seq<nat>, blCodes: nat)

  predicate Proper(h: Header)
  {
    && 257 <= |h.ll| <= 286 && 1 <= |h.dd| <= 30
    && Limited(h.ll, MAX_BITS) && Limited(h.dd, MAX_BITS)
    && |h.bl| == BL_CODES && BL_CODES <= |h.blFc| && Limited(h.bl, 7)
    && 4 <= h.blCodes <= BL_CODES
    && (forall r :: h.blCodes <= r < BL_CODES ==> h.bl[AtRank(r)] == 0)
    && CanSendAll(Items(h.ll, 0, -1, 0), h.blFc, h.bl)
    && CanSendAll(Items(h.dd, 0, -1, 0), h.blFc, h.bl)
  }

  /** The code length code lengths of ranks `[a, b)`. */
  function RankBits(bl: seq<nat>, a: nat, b: nat): seq<bool>
    requires a <= b <= BL_CODES == |bl|
    decreases b - a
  {
    if a == b then [] else BitsOf(bl[AtRank(a)], 3) + RankBits(bl, a + 1, b)
  }

  lemma {:induction false} RankBitsSnoc(bl: seq<nat>, a: nat, b: nat)
    requires a <= b < BL_CODES == |bl|
    ensures RankBits(bl, a, b + 1) == RankBits(bl, a, b) + BitsOf(bl[AtRank(b)], 3)
    ensures |RankBits(bl, a, b)| == 3 * (b - a)
    decreases b - a
  {
    hide AtRank;
    if a == b {
      assert RankBits(bl, a, b + 1) == BitsOf(bl[AtRank(a)], 3) + RankBits(bl, a + 1, b + 1);
    } else {
      RankBitsSnoc(bl, a + 1, b);
      var first, mid, last := BitsOf(bl[AtRank(a)], 3), RankBits(bl, a + 1, b), BitsOf(bl[AtRank(b)], 3);
      assert RankBits(bl, a, b + 1) == first + (mid + last) == (first + mid) + last;
    }
  }

  function TreeItems(h: Header): seq<Item>
  {
    Items(h.ll, 0, -1, 0) + Items(h.dd, 0, -1, 0)
  }

  function CountBits(h: Header): seq<bool>
    requires Proper(h)
  {
    BitsOf(|h.ll| - 257, 5) + BitsOf(|h.dd| - 1, 5) + BitsOf(h.blCodes - 4, 4)
  }

  function HeaderBits(h: Header): seq<bool>
    requires Proper(h)
  {
    CountBits(h) + RankBits(h.bl, 0, h.blCodes)
    + ItemsBits(Items(h.ll, 0, -1, 0), h.blFc, h.bl) + ItemsBits(Items(h.dd, 0, -1, 0), h.blFc, h.bl)
  }

  // ---- reading it back --------------------------------------------------------------

  const RANK_OF: seq<nat> := [3, 17, 15, 13, 11, 9, 7, 5, 4, 6, 8, 10, 12, 14, 16, 18, 0, 1, 2]

  function RankOf(c: nat): (r: nat)
    requires c < BL_CODES
    ensures r < BL_CODES
  {
    RANK_OF[c]
  }

  lemma OrderIsPermutation(r: nat)
    requires r < BL_CODES
    ensures RankOf(AtRank(r)) == r && AtRank(RankOf(r)) == r
    ensures CODE_LENGTH_ORDER[r] == AtRank(r)
  {
  }

  /** The lengths of the ranks below `rank` have been read, and all others are zero. */
  predicate RankRead(lens: seq<nat>, bl: seq<nat>, rank: nat)
    requires |bl| == BL_CODES
  {
    && |lens| == BL_CODES && Limited(lens, 7)
    && (forall c {:trigger lens[c]} :: 0 <= c < BL_CODES ==> lens[c] == if RankOf(c) < rank then bl[c] else 0)
  }

  lemma RankReadStep(lens: seq<nat>, bl: seq<nat>, rank: nat)
    requires rank < BL_CODES == |bl| && Limited(bl, 7) && RankRead(lens, bl, rank)
    ensures AtRank(rank) < BL_CODES == |lens| && Limited(lens, 7)
    ensures RankRead(lens[AtRank(rank) := bl[AtRank(rank)]], bl, rank + 1)
  {
    hide AtRank, RankOf;
    OrderIsPermutation(rank);
    var next := lens[AtRank(rank) := bl[AtRank(rank)]];
    forall c | 0 <= c < BL_CODES
      ensures next[c] == if RankOf(c) < rank + 1 then bl[c] else 0
    {
      OrderIsPermutation(c);
      assert lens[c] == if RankOf(c) < rank then bl[c] else 0;
    }
  }

  lemma AllRanksRead(lens: seq<nat>, bl: seq<nat>, n: nat)
    requires n <= BL_CODES == |bl| && RankRead(lens, bl, n) && forall r :: n <= r < BL_CODES ==> bl[AtRank(r)] == 0
    ensures lens == bl
  {
    hide AtRank, RankOf;
    forall c | 0 <= c < BL_CODES
      ensures lens[c] == bl[c]
    {
      OrderIsPermutation(c);
      assert RankOf(c) >= n ==> bl[AtRank(RankOf(c))] == 0;
    }
  }

  lemma {:induction false} ReadRanks(bl: seq<nat>, rank: nat, n: nat, lens: seq<nat>, rest: seq<bool>)
    requires rank <= n <= BL_CODES == |bl| && Limited(bl, 7) && RankRead(lens, bl, rank)
    requires forall r :: n <= r < BL_CODES ==> bl[AtRank(r)] == 0
    ensures ReadCodeLengthLengths(RankBits(bl, rank, n) + rest, rank, n, lens) == Some((bl, rest))
    decreases n - rank
  {
    hide AtRank, RankOf, RankRead, BitsOf;
    if rank == n {
      AllRanksRead(lens, bl, n);
      assert RankBits(bl, rank, n) + rest == rest;
    } else {
      RankReadStep(lens, bl, rank);
      OrderIsPermutation(rank);
      var v := bl[AtRank(rank)];
      assert v < Pow2(3);
      ReadBitsOf(v, 3, RankBits(bl, rank + 1, n) + rest);
      assert RankBits(bl, rank, n) + rest == BitsOf(v, 3) + (RankBits(bl, rank + 1, n) + rest);
      ReadRanks(bl, rank + 1, n, lens[AtRank(rank) := v], rest);
    }
  }

  lemma {:induction false} KraftScale(lens: seq<nat>, k: nat, limit: nat, more: nat)
    requires k <= |lens| && Limited(lens, limit)
    ensures Limited(lens, limit + more)
    ensures KraftOf(lens, k, limit + more) == Shl(KraftOf(lens, k, limit), more)
  {
    if k == 0 {
      ShlAdd(0, 0, more);
    } else {
      KraftScale(lens, k - 1, limit, more);
      ShlAdd(KraftOf(lens, k - 1, limit), if lens[k - 1] == 0 then 0 else Pow2(limit - lens[k - 1]), more);
      ShlAdd(0, 0, more);
      if lens[k - 1] != 0 {
        ShlPow2(limit - lens[k - 1], more);
      }
    }
  }

  /** Being over-subscribed does not depend on the unit. */
  lemma ValidAtAnyLimit(lens: seq<nat>, limit: nat)
    requires limit <= MAX_BITS && Limited(lens, limit)
    ensures ValidLengths(lens) <==> Kraft(lens, limit) <= Pow2(limit)
  {
    KraftScale(lens, |lens|, limit, MAX_BITS - limit);
    ShlPow2(limit, MAX_BITS - limit);
    ShlMono(Kraft(lens, limit), Pow2(limit), MAX_BITS - limit);
  }

  lemma Nested(c: seq<bool>, r: seq<bool>, l: seq<bool>, d: seq<bool>, rest: seq<bool>)
    ensures c + r + l + d + rest == c + (r + (l + (d + rest)))
  {
  }

  /** The counts at the front of the header. */
  lemma ReadCounts(h: Header, rest: seq<bool>)
    requires Proper(h)
    ensures var r1 := ReadBits(CountBits(h) + rest, 5);
      && r1.Some? && r1.value.0 == |h.ll| - 257
      && var r2 := ReadBits(r1.value.1, 5);
      && r2.Some? && r2.value.0 == |h.dd| - 1
      && ReadBits(r2.value.1, 4) == Some((h.blCodes - 4, rest))
  {
    hide AtRank, Items, CanSendAll;
    assert Pow2(5) == 32 && Pow2(4) == 16;
    var a, b, c := BitsOf(|h.ll| - 257, 5), BitsOf(|h.dd| - 1, 5), BitsOf(h.blCodes - 4, 4);
    assert CountBits(h) + rest == a + (b + (c + rest));
    ReadBitsOf(|h.ll| - 257, 5, b + (c + rest));
    ReadBitsOf(|h.dd| - 1, 5, c + rest);
    ReadBitsOf(h.blCodes - 4, 4, rest);
  }

  /** The items of both trees, together, stand for the lengths of both. */
  lemma BothExpand(ll: seq<nat>, dd: seq<nat>)
    requires Limited(ll, MAX_BITS) && Limited(dd, MAX_BITS) && ll != []
    ensures ExpandAll(Items(ll, 0, -1, 0), []) == ll && ExpandAll(Items(dd, 0, -1, 0), ll) == ll + dd
    ensures Starts(Items(ll, 0, -1, 0), []) && Starts(Items(dd, 0, -1, 0), ll)
  {
    ItemsExpand(ll, 0, -1, 0, []);
    ItemsExpand(dd, 0, -1, 0, ll);
    FirstIsNoRepeat(ll, 0, 0);
    hide Items;
    assert [] + ll[..0] == [] && [] + ll == ll && ll + dd[..0] == ll;
  }

  lemma CanSendMeansSent(items: seq<Item>, fc: seq<int>, bl: seq<nat>)
    requires |bl| == BL_CODES && CanSendAll(items, fc, bl)
    ensures Sent(items, bl) && AllValid(items)
  {
  }

  /** Reading the two trees' items gives the lengths of both, one after the other. */
  lemma ReadBothTrees(h: Header, rest: seq<bool>)
    requires Proper(h) && ValidLengths(h.bl) && CanonicalTable(h.blFc, h.bl, h.bl)
    ensures ReadLengths(h.bl, ItemsBits(Items(h.ll, 0, -1, 0), h.blFc, h.bl)
                              + (ItemsBits(Items(h.dd, 0, -1, 0), h.blFc, h.bl) + rest), [], |h.ll| + |h.dd|)
         == Some((h.ll + h.dd, rest))
  {
    hide Items, ItemsBits, ReadLengths, AtRank, CanSendAll, ExpandAll, ValidLengths, CanonicalTable, Sent, AllValid,
      Starts;
    var a, b := Items(h.ll, 0, -1, 0), Items(h.dd, 0, -1, 0);
    var total, bl := |h.ll| + |h.dd|, h.bl;
    BothExpand(h.ll, h.dd);
    CanSendMeansSent(a, h.blFc, bl);
    CanSendMeansSent(b, h.blFc, bl);
    ReadItems(a, h.blFc, bl, bl, ItemsBits(b, h.blFc, bl) + rest, [], total);
    ReadItems(b, h.blFc, bl, bl, rest, h.ll, total);
    AllRead(bl, rest, h.ll + h.dd);
  }

  lemma AllRead(bl: seq<nat>, rest: seq<bool>, acc: seq<nat>)
    ensures ReadLengths(bl, rest, acc, |acc|) == Some((acc, rest))
  {
  }

  /** What the decoder does with the lengths, once it has the code that they are sent with. */
  function AfterRanks(bl: seq<nat>, s: seq<bool>, literals: nat,
                      distances: nat): (r: Option<(seq<nat>, seq<nat>, seq<bool>)>)
  {
    if !ValidLengths(bl) then None else
    var (lens, rest) :- ReadLengths(bl, s, [], literals + distances);
    var ll, dd := lens[..literals], lens[literals..];
    if ValidLengths(ll) && ValidLengths(dd) then Some((ll, dd, rest)) else None
  }

  lemma ReadFront(s: seq<bool>, s1: seq<bool>, s2: seq<bool>, s3: seq<bool>, s4: seq<bool>, literals: nat,
                  distances: nat,
                  codes: nat, bl: seq<nat>)
    requires literals >= 257 && distances >= 1 && 4 <= codes <= BL_CODES
    requires ReadBits(s, 5) == Some((literals - 257, s1)) && ReadBits(s1, 5) == Some((distances - 1, s2))
    requires ReadBits(s2, 4) == Some((codes - 4, s3))
    requires ReadCodeLengthLengths(s3, 0, codes, Repeat(0, 19)) == Some((bl, s4))
    ensures ReadTrees(s) == AfterRanks(bl, s4, literals, distances)
  {
    hide ReadBits, ReadLengths, ReadCodeLengthLengths, ValidLengths;
    assert literals - 257 + 257 + (distances - 1) + 1 == literals + distances;
  }

  /** The decoder makes of the header exactly the lengths it was written for, provided none
      of the three codes is over-subscribed; otherwise it rejects the block. */
  lemma ReadHeader(h: Header, rest: seq<bool>)
    requires Proper(h) && (ValidLengths(h.bl) ==> CanonicalTable(h.blFc, h.bl, h.bl))
    ensures ReadTrees(HeaderBits(h) + rest)
         == if ValidLengths(h.bl) && ValidLengths(h.ll) && ValidLengths(h.dd) then Some((h.ll, h.dd, rest)) else None
  {
    hide Items, ItemsBits, ReadBits, ReadLengths, ReadTrees, AtRank, RankBits, ReadCodeLengthLengths, CountBits,
      ValidLengths;
    var c, r := CountBits(h), RankBits(h.bl, 0, h.blCodes);
    var l, d := ItemsBits(Items(h.ll, 0, -1, 0), h.blFc, h.bl), ItemsBits(Items(h.dd, 0, -1, 0), h.blFc, h.bl);
    Nested(c, r, l, d, rest);
    var s := c + (r + (l + (d + rest)));
    ReadCounts(h, r + (l + (d + rest)));
    ReadRanks(h.bl, 0, h.blCodes, Repeat(0, 19), l + (d + rest));
    var s1 := ReadBits(s, 5).value.1;
    var s2 := ReadBits(s1, 5).value.1;
    ReadFront(s, s1, s2, r + (l + (d + rest)), l + (d + rest), |h.ll|, |h.dd|, h.blCodes, h.bl);
    if ValidLengths(h.bl) {
      ReadBothTrees(h, rest);
      assert (h.ll + h.dd)[..|h.ll|] == h.ll && (h.ll + h.dd)[|h.ll|..] == h.dd;
    }
  }

  // ---- what it costs ----------------------------------------------------------------

  lemma HeaderCost(h: Header)
    requires Proper(h)
    ensures forall i :: 0 <= i < |TreeItems(h)| ==> Syms(TreeItems(h))[i] < |h.bl|
    ensures |HeaderBits(h)| == 14 + 3 * h.blCodes + StreamCost(Syms(TreeItems(h)), h.bl, EXTRA_BLBITS, 0)
  {
    hide AtRank, Items;
    var a, b := Items(h.ll, 0, -1, 0), Items(h.dd, 0, -1, 0);
    RankBitsCount(h.bl, h.blCodes);
    ItemsBitsConcat(a, b, h.blFc, h.bl);
    assert forall i :: 0 <= i < |a + b| ==> CanSend(h.blFc, h.bl, (a + b)[i].sym);
    ItemsCost(a + b, h.blFc, h.bl);
  }

  lemma RankBitsCount(bl: seq<nat>, n: nat)
    requires n <= BL_CODES == |bl|
    ensures |RankBits(bl, 0, n)| == 3 * n
  {
    if n < BL_CODES {
      RankBitsSnoc(bl, 0, n);
    } else {
      RankBitsSnoc(bl, 0, n - 1);
    }
  }
}
