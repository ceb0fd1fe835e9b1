/** The code length tree of a dynamic block (`zip_build_bl_tree`) and the header that is
    sent with it (`zip_send_all_trees`). */
module BlTree {
  import opened HuffmanCode
  import opened HuffmanStart
  import opened BitLengths
  import opened LengthLimit
  import opened SymbolCosts
  import opened TreeBuilder
  import opened TreeHeader
  import opened TreeSender
  import opened DynamicHeader
  import opened DynamicTree
  import opened BlockWriter

  // ---- some length is always sent by itself -----------------------------------------

  predicate HasLength(items: seq<Item>) { exists i :: 0 <= i < |items| && 1 <= items[i].sym <= 15 }

  lemma HasLengthConcat(a: seq<Item>, b: seq<Item>)
    requires HasLength(a) || HasLength(b)
    ensures HasLength(a + b)
  {
    if HasLength(a) {
      var i :| 0 <= i < |a| && 1 <= a[i].sym <= 15;
      assert (a + b)[i] == a[i];
    } else {
      var i :| 0 <= i < |b| && 1 <= b[i].sym <= 15;
      assert (a + b)[|a| + i] == b[i];
    }
  }

  lemma RunHasLength(prev: int, cur: nat, count: nat)
    requires 1 <= count && 0 < cur <= MAX_BITS && cur != prev
    ensures HasLength(RunItems(prev, cur, count))
  {
    assert RunItems(prev, cur, count)[0].sym == cur;
  }

  /** The first length that is not zero cannot be a repeat of the one before it, so a code
      length symbol of rank 3 or more is always used. */
  lemma {:induction false} ItemsHaveLength(lens: seq<nat>, n: nat, prev: int, count: nat)
    requires n < |lens| && Limited(lens, MAX_BITS) && lens[|lens| - 1] > 0 && prev <= 0
    ensures HasLength(Items(lens, n, prev, count))
    decreases |lens| - n
  {
    if count + 1 < MaxCount(prev, lens[n]) && n + 1 < |lens| && lens[n] == lens[n + 1] {
      ItemsHaveLength(lens, n + 1, prev, count + 1);
    } else {
      if lens[n] > 0 {
        RunHasLength(prev, lens[n], count + 1);
      } else {
        ItemsHaveLength(lens, n + 1, 0, 0);
      }
      HasLengthConcat(RunItems(prev, lens[n], count + 1), Items(lens, n + 1, lens[n], 0));
    }
  }

  lemma LowRanks(c: nat)
    requires 1 <= c <= 15
    ensures RankOf(c) >= 3 && AtRank(RankOf(c)) == c
  {
  }

  // ---- the frequencies of the scan --------------------------------------------------

  /** Scanning both trees counts the symbols of both. */
  lemma ScanCounts(f0: seq<int>, f1: seq<int>, f2: seq<int>, ll: seq<nat>, dd: seq<nat>)
    requires |f0| >= BL_CODES && (forall c :: 0 <= c < BL_CODES ==> f0[c] == 0)
    requires Limited(ll, MAX_BITS) && Limited(dd, MAX_BITS)
    requires Counted(f1, f0, Items(ll, 0, -1, 0)) && Counted(f2, f1, Items(dd, 0, -1, 0))
    ensures IsFrequency(f2[..BL_CODES], Syms(Items(ll, 0, -1, 0) + Items(dd, 0, -1, 0)))
    ensures NonNegative(f2[..BL_CODES])
  {
    var a, b := Items(ll, 0, -1, 0), Items(dd, 0, -1, 0);
    ItemsValid(ll, 0, -1, 0);
    ItemsValid(dd, 0, -1, 0);
    SymsConcat(a, b);
    hide Items;
    forall c | 0 <= c < BL_CODES
      ensures f2[..BL_CODES][c] == Occurs(Syms(a + b), c)
    {
      assert f1[c] == f0[c] + Occurs(Syms(a), c);
      assert f2[c] == f1[c] + Occurs(Syms(b), c);
      OccursConcat(Syms(a), Syms(b), c);
    }
    forall i | 0 <= i < |a + b|
      ensures Syms(a + b)[i] < BL_CODES
    {
      assert ItemValid((a + b)[i]);
    }
  }

  // ---- the code that was built ------------------------------------------------------

  /** Every item can be sent with the code length code. */
  lemma ItemsCanSend(f: seq<int>, items: seq<Item>, fc: seq<int>, dl: seq<int>, maxCode: int, overflow: int,
                     bl: seq<nat>)
    requires IsFrequency(f, Syms(items)) && |f| == BL_CODES && AllValid(items)
    requires Decodable(f, fc, dl, maxCode, MAX_BL_BITS, overflow) && bl == dl[..BL_CODES]
    ensures CanSendAll(items, fc, bl)
  {
    forall i | 0 <= i < |items|
      ensures CanSend(fc, bl, items[i].sym)
    {
      var c := items[i].sym;
      assert Syms(items)[i] == c;
      OccursMember(Syms(items), i);
      assert f[c] > 0;
      assert bl[c] == dl[c];
    }
  }

  lemma BlCanonical(f: seq<int>, fc: seq<int>, dl: seq<int>, maxCode: int, overflow: int, bl: seq<nat>)
    requires Encoded(f, fc, dl, maxCode, MAX_BL_BITS, overflow) && |f| == BL_CODES && bl == dl[..BL_CODES]
    ensures Limited(bl, MAX_BL_BITS) && (ValidLengths(bl) <==> overflow == 0)
    ensures overflow == 0 ==> CanonicalTable(fc, bl, bl)
  {
    ValidAtAnyLimit(bl, MAX_BL_BITS);
    hide Codeword, ValidLengths, AtLeastTwo, MaxUsed;
  }

  /** The cost of the items, as `zip_build_tree` adds it up. */
  lemma ItemsTotal(f: seq<int>, items: seq<Item>, bl: seq<nat>, est: seq<nat>, fc: seq<int>)
    requires IsFrequency(f, Syms(items)) && |f| == |bl| == |est| == BL_CODES <= |fc| && CanSendAll(items, fc, bl)
    ensures forall i :: 0 <= i < |items| ==> Syms(items)[i] < |est|
    ensures Total(f, bl, est, EXTRA_BLBITS, 0, BL_CODES) == StreamCost(Syms(items), est, EXTRA_BLBITS, 0)
  {
    forall i | 0 <= i < |items|
      ensures bl[Syms(items)[i]] > 0
    {
      assert CanSend(fc, bl, items[i].sym);
    }
    TotalIsStreamCost(f, Syms(items), bl, est, EXTRA_BLBITS, 0);
  }

  /** The rank up to which code length code lengths must be sent. */
  lemma LastRankFound(items: seq<Item>, fc: seq<int>, bl: seq<nat>) returns (r: nat)
    requires |bl| == BL_CODES && CanSendAll(items, fc, bl) && HasLength(items)
    ensures 3 <= r < BL_CODES && bl[AtRank(r)] > 0
  {
    var i :| 0 <= i < |items| && 1 <= items[i].sym <= 15;
    LowRanks(items[i].sym);
    assert CanSend(fc, bl, items[i].sym);
    r := RankOf(items[i].sym);
  }

  /** The loop of `zip_build_bl_tree`: the last rank with a length, at least 3. */
  method LastRank(dl: array<int>, ghost r: nat) returns (maxBlIndex: nat)
    requires dl.Length >= BL_CODES && 3 <= r < BL_CODES && dl[AtRank(r)] != 0
    ensures 3 <= maxBlIndex < BL_CODES && dl[AtRank(maxBlIndex)] != 0
    ensures forall k :: maxBlIndex < k < BL_CODES ==> dl[AtRank(k)] == 0
  {
    hide AtRank;
    maxBlIndex := BL_CODES - 1;
    while maxBlIndex >= 3 && dl[AtRank(maxBlIndex)] == 0
      invariant r <= maxBlIndex < BL_CODES
      invariant forall k :: maxBlIndex < k < BL_CODES ==> dl[AtRank(k)] == 0
      decreases maxBlIndex
    {
      maxBlIndex := maxBlIndex - 1;
    }
  }
}
